/** Materials, textures and images of the glTF sink: each is interned in an
    insertion-ordered set and referred to by its position; images given by
    a file URI are embedded into the binary buffer behind a new buffer
    view. */
module GltfMaterial {
  import opened Common
  import opened IndexSets

  /** An RGBA colour of single-precision components. */
  datatype Color4 = Color4(r: F32, g: F32, b: F32, a: F32)

  /** A texture, identified by its URL. */
  datatype Texture = Texture(uri: string)

  /** An image, identified by its URL. */
  datatype Image = Image(uri: string)

  /** A material: base colour and an optional base texture. */
  datatype Material = Material(baseColor: Color4, baseTexture: Option<Texture>)

  datatype TextureInfo = TextureInfo(index: u32, texCoord: nat)

  datatype PbrMetallicRoughness = PbrMetallicRoughness(
    baseColorFactor: seq<F64>, metallicFactor: F64, roughnessFactor: F64, baseColorTexture: Option<TextureInfo>)

  datatype GltfMaterialJson = GltfMaterialJson(pbrMetallicRoughness: Option<PbrMetallicRoughness>)

  datatype GltfTextureJson = GltfTextureJson(source: Option<u32>)

  /** 0.2 and 0.5 as IEEE-754 doubles. */
  const METALLIC_FACTOR: F64 := F64(0x3FC9_9999_9999_999A)
  const ROUGHNESS_FACTOR: F64 := F64(0x3FE0_0000_0000_0000)

  /** `Material::to_gltf`: the base texture, if any, is interned into
      `textureSet` and referred to by its position; `toF64` is the widening
      conversion `f64::from`. */
  method MaterialToGltf(m: Material, textureSet: IndexSet<Texture>, toF64: F32 -> F64)
      returns (out: GltfMaterialJson)
    requires textureSet.Valid()
    modifies textureSet
    ensures textureSet.Valid()
    ensures out.pbrMetallicRoughness.Some?
    ensures var pbr := out.pbrMetallicRoughness.value;
      pbr.metallicFactor == METALLIC_FACTOR && pbr.roughnessFactor == ROUGHNESS_FACTOR &&
      pbr.baseColorFactor == [toF64(m.baseColor.r), toF64(m.baseColor.g), toF64(m.baseColor.b), toF64(m.baseColor.a)]
    ensures m.baseTexture.None? ==>
      textureSet.items == old(textureSet.items) && out.pbrMetallicRoughness.value.baseColorTexture.None?
    ensures m.baseTexture.Some? ==>
      var (items, index) := Inserted(old(textureSet.items), m.baseTexture.value);
      textureSet.items == items &&
      out.pbrMetallicRoughness.value.baseColorTexture == Some(TextureInfo(AsU32(index), 0))
  {
    var tex: Option<TextureInfo> := None;
    if m.baseTexture.Some? {
      var texIdx := textureSet.InsertFull(m.baseTexture.value);
      tex := Some(TextureInfo(AsU32(texIdx), 0));
    }
    var c := m.baseColor;
    out := GltfMaterialJson(Some(PbrMetallicRoughness(
      [toF64(c.r), toF64(c.g), toF64(c.b), toF64(c.a)], METALLIC_FACTOR, ROUGHNESS_FACTOR, tex)));
  }

  /** The index a texture is given refers back to it, and an equal texture
      already in the set keeps its index and leaves the set unchanged. */
  lemma {:induction false} TextureIndexRefersBack(s: seq<Texture>, t: Texture)
    requires |Inserted(s, t).0| <= TWO_32
    ensures Inserted(s, t).0[AsU32(Inserted(s, t).1)] == t
    ensures t in s ==> Inserted(s, t).0 == s && s[Inserted(s, t).1] == t
    ensures t !in s ==> AsU32(Inserted(s, t).1) == |s|
  {
  }

  /** `Texture::to_gltf`: the image of the same URL is interned into
      `images` and becomes the texture's source. */
  method TextureToGltf(t: Texture, images: IndexSet<Image>) returns (out: GltfTextureJson)
    requires images.Valid()
    modifies images
    ensures images.Valid()
    ensures var (items, index) := Inserted(old(images.items), Image(t.uri));
      images.items == items && out.source == Some(AsU32(index))
  {
    var imageIndex := images.InsertFull(Image(t.uri));
    out := GltfTextureJson(Some(AsU32(imageIndex)));
  }

  // ---------------------------------------------------------------------
  // Images

  datatype MimeType = ImagePng | ImageJpeg

  datatype ErrorKind = InvalidData | NotFound | OtherKind

  /** `std::io::Error`, by its kind; messages are not modelled. */
  datatype IoError = IoError(kind: ErrorKind)

  /** The last position of `c` in `s`. */
  function LastIndexOf(s: string, c: char): (r: Option<nat>)
    ensures r.None? <==> c !in s
    ensures r.Some? ==> r.value < |s| && s[r.value] == c && c !in s[r.value + 1..]
  {
    if s == [] then None
    else if s[|s| - 1] == c then Some(|s| - 1)
    else
      var r := LastIndexOf(s[..|s| - 1], c);
      assert s == s[..|s| - 1] + [s[|s| - 1]];
      if r.Some? then
        assert s[r.value + 1..] == s[..|s| - 1][r.value + 1..] + [s[|s| - 1]];
        r
      else r
  }

  /** The path without the trailing `/` separators and `.` components
      that `Path::components` skips at its end. */
  function TrimTrailing(path: string): (r: string)
    ensures |r| <= |path| && r == path[..|r|]
    decreases |path|
  {
    if |path| > 1 && path[|path| - 1] == '/' then TrimTrailing(path[..|path| - 1])
    else if |path| > 2 && path[|path| - 2] == '/' && path[|path| - 1] == '.' then TrimTrailing(path[..|path| - 2])
    else path
  }

  /** `Path::file_name`: the final component, unless the path ends in the
      root, in `.` or in `..`. */
  function FileName(path: string): (r: Option<string>)
    ensures r.Some? ==> '/' !in r.value && r.value != "" && r.value != "." && r.value != ".."
  {
    var p := TrimTrailing(path);
    var name := match LastIndexOf(p, '/') case None => p case Some(i) => p[i + 1..];
    if name == "" || name == "." || name == ".." then None else Some(name)
  }

  /** `Path::extension`: the text after the last `.` of the file name,
      unless the only `.` starts the name or there is none. */
  function Extension(path: string): (r: Option<string>)
    ensures r.Some? ==> FileName(path).Some? && '.' in FileName(path).value && '.' !in r.value
    ensures FileName(path).None? || '.' !in FileName(path).value ==> r.None?
  {
    match FileName(path)
    case None => None
    case Some(name) =>
      match LastIndexOf(name, '.')
      case None => None
      case Some(i) => if i == 0 then None else Some(name[i + 1..])
  }

  /** The format `load_image` reads an image as, by extension;
      case-sensitively. */
  datatype ImageFormat = ReencodeAsPng | EmbedJpeg

  function ClassifyExtension(ext: Option<string>): (r: Option<ImageFormat>)
    ensures r == Some(ReencodeAsPng) <==> ext == Some("tif") || ext == Some("tiff") || ext == Some("png")
    ensures r == Some(EmbedJpeg) <==> ext == Some("jpg") || ext == Some("jpeg")
  {
    match ext
    case Some(e) =>
      if e == "tif" || e == "tiff" || e == "png" then Some(ReencodeAsPng)
      else if e == "jpg" || e == "jpeg" then Some(EmbedJpeg)
      else None
    case None => None
  }

  /** The last `c` is at `k` when `c` sits there and nowhere after. */
  lemma {:induction false} LastIndexOfAt(s: string, c: char, k: nat)
    requires k < |s| && s[k] == c && c !in s[k + 1..]
    ensures LastIndexOf(s, c) == Some(k)
    decreases |s|
  {
    if k < |s| - 1 {
      var init := s[..|s| - 1];
      assert s[|s| - 1] == s[k + 1..][|s| - 1 - (k + 1)];
      assert s[k + 1..] == init[k + 1..] + [s[|s| - 1]];
      LastIndexOfAt(init, c, k);
    }
  }

  /** The file name of `dir/name` is `name` when `name` is a plain
      component. */
  lemma {:induction false} FileNameOfJoin(dir: string, name: string)
    requires '/' !in name && name != "" && name != "." && name != ".."
    ensures TrimTrailing(dir + "/" + name) == dir + "/" + name
    ensures FileName(dir + "/" + name) == Some(name)
  {
    var p := dir + "/" + name;
    assert p[|p| - 1] == name[|name| - 1];
    if |name| >= 2 {
      assert p[|p| - 2] == name[|name| - 2];
    }
    assert TrimTrailing(p) == p;
    assert p[|dir|] == '/' && p[|dir| + 1..] == name;
    LastIndexOfAt(p, '/', |dir|);
  }

  /** The extension of a file named `stem.ext` is `ext` when `ext` has no
      dot and `stem` is not empty. */
  lemma {:induction false} ExtensionOfName(path: string, stem: string, ext: string)
    requires FileName(path) == Some(stem + "." + ext) && stem != "" && '.' !in ext
    ensures Extension(path) == Some(ext)
  {
    var name := stem + "." + ext;
    assert name[|stem|] == '.' && name[|stem| + 1..] == ext;
    LastIndexOfAt(name, '.', |stem|);
  }

  /** A trailing `/` or `/.` does not change the final component. */
  lemma {:induction false} TrimSeparator(p: string)
    requires p != []
    ensures TrimTrailing(p + "/") == TrimTrailing(p)
    ensures TrimTrailing(p + "/.") == TrimTrailing(p)
  {
    var p1, p2 := p + "/", p + "/.";
    assert p1[..|p1| - 1] == p && p1[|p1| - 1] == '/';
    assert p2[..|p2| - 2] == p && p2[|p2| - 2] == '/' && p2[|p2| - 1] == '.';
  }

  /** The classification is by exact extension: the name after the last
      `/`, the extension after the last `.` of it, whatever the directory. */
  lemma {:induction false} ClassifyPng(dir: string)
    ensures ClassifyExtension(Extension(dir + "/a.png")) == Some(ReencodeAsPng)
  {
    assert dir + "/a.png" == dir + "/" + "a.png" && "a.png" == "a" + "." + "png";
    FileNameOfJoin(dir, "a.png");
    ExtensionOfName(dir + "/a.png", "a", "png");
  }

  lemma {:induction false} ClassifyJpegAfterLastDot(dir: string)
    ensures ClassifyExtension(Extension(dir + "/a.b.jpeg")) == Some(EmbedJpeg)
  {
    assert dir + "/a.b.jpeg" == dir + "/" + "a.b.jpeg" && "a.b.jpeg" == "a.b" + "." + "jpeg";
    FileNameOfJoin(dir, "a.b.jpeg");
    ExtensionOfName(dir + "/a.b.jpeg", "a.b", "jpeg");
  }

  /** Capitalised extensions are refused. */
  lemma {:induction false} ClassifyCaseSensitive(dir: string)
    ensures ClassifyExtension(Extension(dir + "/a.PNG")).None?
  {
    assert dir + "/a.PNG" == dir + "/" + "a.PNG" && "a.PNG" == "a" + "." + "PNG";
    FileNameOfJoin(dir, "a.PNG");
    ExtensionOfName(dir + "/a.PNG", "a", "PNG");
  }

  /** A name whose only dot starts it has no extension. */
  lemma {:induction false} ClassifyHiddenFile(dir: string)
    ensures ClassifyExtension(Extension(dir + "/.png")).None?
  {
    assert dir + "/.png" == dir + "/" + ".png";
    FileNameOfJoin(dir, ".png");
    assert ".png"[1..] == "png";
    LastIndexOfAt(".png", '.', 0);
  }

  /** A dot in a directory name is not an extension. */
  lemma {:induction false} ClassifyDotInDirectory(dir: string)
    ensures ClassifyExtension(Extension(dir + ".d/png")).None?
  {
    assert dir + ".d/png" == (dir + ".d") + "/" + "png";
    FileNameOfJoin(dir + ".d", "png");
  }

  /** Trailing separators and `.` components are skipped, as
      `Path::components` does: the extension is that of the path without
      them. */
  lemma {:induction false} ExtensionIgnoresTrailingSeparator(p: string)
    requires p != []
    ensures Extension(p + "/") == Extension(p)
    ensures Extension(p + "/.") == Extension(p)
  {
    TrimSeparator(p);
    assert FileName(p + "/") == FileName(p);
    assert FileName(p + "/.") == FileName(p);
  }

  /** So `a.png/` and `a.png/.` are still read as PNG. */
  lemma {:induction false} ClassifyTrailingSeparator(dir: string)
    ensures ClassifyExtension(Extension(dir + "/a.png/")) == Some(ReencodeAsPng)
    ensures ClassifyExtension(Extension(dir + "/a.png/.")) == Some(ReencodeAsPng)
  {
    var p := dir + "/a.png";
    assert dir + "/a.png/" == p + "/" && dir + "/a.png/." == p + "/.";
    ExtensionIgnoresTrailingSeparator(p);
    ClassifyPng(dir);
  }

  /** A path ending in `..` has no file name, hence no extension. */
  lemma {:induction false} ClassifyParentDirectory(dir: string)
    ensures Extension(dir + "/..").None?
  {
    var p := dir + "/..";
    assert p[|p| - 1] == '.' && p[|p| - 2] == '.';
    assert TrimTrailing(p) == p;
    assert p[|dir|] == '/' && p[|dir| + 1..] == "..";
    LastIndexOfAt(p, '/', |dir|);
  }

  /** `load_image`: PNG-like files are decoded and re-encoded as PNG
      (`reencode`), JPEG files embedded as read (`readFile`); decoding
      errors become `InvalidData`, as does an unsupported or missing
      extension. */
  function LoadImage(path: string, reencode: string -> Option<seq<byte>>, readFile: string -> Result<seq<byte>, IoError>)
      : (r: Result<(seq<byte>, MimeType), IoError>)
    ensures ClassifyExtension(Extension(path)).None? ==> r == Err(IoError(InvalidData))
    ensures r.Ok? && r.value.1 == ImagePng ==> ClassifyExtension(Extension(path)) == Some(ReencodeAsPng)
    ensures r.Ok? && r.value.1 == ImageJpeg ==> ClassifyExtension(Extension(path)) == Some(EmbedJpeg)
    ensures ClassifyExtension(Extension(path)) == Some(ReencodeAsPng) ==>
      (reencode(path).Some? ==> r == Ok((reencode(path).value, ImagePng))) &&
      (reencode(path).None? ==> r == Err(IoError(InvalidData)))
    ensures ClassifyExtension(Extension(path)) == Some(EmbedJpeg) ==>
      (readFile(path).Ok? ==> r == Ok((readFile(path).value, ImageJpeg))) &&
      (readFile(path).Err? ==> r == Err(readFile(path).error))
  {
    match ClassifyExtension(Extension(path))
    case Some(ReencodeAsPng) =>
      (match reencode(path)
       case Some(png) => Ok((png, ImagePng))
       case None => Err(IoError(InvalidData)))
    case Some(EmbedJpeg) =>
      (match readFile(path)
       case Ok(bytes) => Ok((bytes, ImageJpeg))
       case Err(e) => Err(e))
    case None => Err(IoError(InvalidData))
  }

  datatype BufferView = BufferView(byteOffset: u32, byteLength: u32)

  datatype GltfImageJson = GltfImageJson(mimeType: Option<MimeType>, bufferView: Option<u32>, uri: Option<string>)

  /** `Image::to_gltf`: a file URL (`toFilePath` succeeds) is loaded and
      appended to `binContent` behind one new buffer view, which the image
      refers to; any other URL is kept as the image's `uri`. */
  method ImageToGltf(img: Image, bufferViews: seq<BufferView>, binContent: seq<byte>,
                     toFilePath: string -> Option<string>,
                     reencode: string -> Option<seq<byte>>, readFile: string -> Result<seq<byte>, IoError>)
      returns (r: Result<GltfImageJson, IoError>, bufferViews': seq<BufferView>, binContent': seq<byte>)
    ensures toFilePath(img.uri).None? ==>
      r == Ok(GltfImageJson(None, None, Some(img.uri))) && bufferViews' == bufferViews && binContent' == binContent
    ensures toFilePath(img.uri).Some? && LoadImage(toFilePath(img.uri).value, reencode, readFile).Err? ==>
      r == Err(LoadImage(toFilePath(img.uri).value, reencode, readFile).error) &&
      bufferViews' == bufferViews && binContent' == binContent
    ensures toFilePath(img.uri).Some? && LoadImage(toFilePath(img.uri).value, reencode, readFile).Ok? ==>
      var (content, mime) := LoadImage(toFilePath(img.uri).value, reencode, readFile).value;
      bufferViews' == bufferViews + [BufferView(AsU32(|binContent|), AsU32(|content|))] &&
      binContent' == binContent + content &&
      r == Ok(GltfImageJson(Some(mime), Some(WrappingDec(AsU32(|bufferViews'|))), None))
  {
    bufferViews', binContent' := bufferViews, binContent;
    var path := toFilePath(img.uri);
    if path.Some? {
      var loaded := LoadImage(path.value, reencode, readFile);
      if loaded.Err? {
        return Err(loaded.error), bufferViews', binContent';
      }
      var (content, mimeType) := loaded.value;
      bufferViews' := bufferViews' + [BufferView(AsU32(|binContent'|), AsU32(|content|))];
      binContent' := binContent' + content;
      r := Ok(GltfImageJson(Some(mimeType), Some(WrappingDec(AsU32(|bufferViews'|))), None));
    } else {
      r := Ok(GltfImageJson(None, None, Some(img.uri)));
    }
  }

  /** `n - 1` on a u32 as a release build computes it. */
  function WrappingDec(n: u32): u32 {
    if n == 0 then TWO_32 - 1 else n - 1
  }

  /** Below 2^32 buffer views, the embedded image refers to the view just
      added, and that view covers exactly the appended bytes. */
  lemma {:induction false} EmbeddedImageView(bufferViews: seq<BufferView>, binContent: seq<byte>, content: seq<byte>)
    requires |bufferViews| < TWO_32 && |binContent| + |content| < TWO_32
    ensures var views := bufferViews + [BufferView(AsU32(|binContent|), AsU32(|content|))];
      var bin := binContent + content;
      var v := views[WrappingDec(AsU32(|views|))];
      WrappingDec(AsU32(|views|)) == |bufferViews| &&
      bin[v.byteOffset .. v.byteOffset + v.byteLength] == content
  {
    var bin := binContent + content;
    assert bin[|binContent| .. |binContent| + |content|] == content;
  }
}
