/** Shared vocabulary of the model: optional values and results, fixed-width
    unsigned integers, little-endian byte encodings and the few string
    operations of the Rust standard library that the converter relies on. */
module Common {

  datatype Option<T> = None | Some(value: T)

  /** The outcome of an operation that may fail with an error value. */
  datatype Result<T, E> = Ok(value: T) | Err(error: E)

  /** A call that either returns or panics (`todo!`, `unimplemented!`,
      `unwrap` on an error, an index out of range). */
  datatype Outcome<T> = Returns(value: T) | Panics

  /** `PipelineError`: a cancellation, or any other failure with its message. */
  datatype PipelineError = Canceled | Failed(message: string)

  type byte = x: int | 0 <= x < 0x100
  type u32 = x: int | 0 <= x < 0x1_0000_0000
  type u64 = x: int | 0 <= x < 0x1_0000_0000_0000_0000

  const TWO_32: nat := 0x1_0000_0000

  /** An IEEE-754 double, represented by its bit pattern: `to_bits` and
      `from_bits` are then the field selector and the constructor, and two
      doubles are the same value exactly when their bits agree (the notion of
      equality the converter uses when it interns vertices). Arithmetic on
      doubles is not modelled; where the converter computes with them the
      model takes the computation as a function parameter. */
  datatype F64 = F64(bits: u64)

  /** An IEEE-754 single, by its bit pattern. */
  datatype F32 = F32(bits: u32)

  /** Rust's `n as u32` on a non-negative integer: keep the low 32 bits. */
  function AsU32(n: nat): (r: u32)
    ensures n < TWO_32 ==> r == n
    ensures r == n % TWO_32
  {
    n % TWO_32
  }

  // ---------------------------------------------------------------------
  // Little-endian words

  /** The four bytes of `n`, least significant first. */
  function U32Le(n: u32): (r: seq<byte>)
    ensures |r| == 4
  {
    [n % 0x100, (n / 0x100) % 0x100, (n / 0x1_0000) % 0x100, n / 0x100_0000]
  }

  /** Reads back a little-endian 32-bit word. */
  function ReadU32Le(b: seq<byte>): (r: u32)
    requires |b| == 4
  {
    var b0: int, b1: int, b2: int, b3: int := b[0], b[1], b[2], b[3];
    b0 + 0x100 * b1 + 0x1_0000 * b2 + 0x100_0000 * b3
  }

  lemma {:induction false} U32LeRoundTrip(n: u32)
    ensures ReadU32Le(U32Le(n)) == n
  {
    var q1 := n / 0x100;
    var q2 := n / 0x1_0000;
    var q3 := n / 0x100_0000;
    assert q2 == q1 / 0x100;
    assert q3 == q2 / 0x100;
  }

  /** The eight bytes of `n`, least significant first. */
  function U64Le(n: u64): (r: seq<byte>)
    ensures |r| == 8
  {
    U32Le(n % TWO_32) + U32Le(n / TWO_32)
  }

  /** Reads back a little-endian 64-bit word. */
  function ReadU64Le(b: seq<byte>): (r: u64)
    requires |b| == 8
  {
    ReadU32Le(b[..4]) + TWO_32 * ReadU32Le(b[4..])
  }

  lemma {:induction false} U64LeRoundTrip(n: u64)
    ensures ReadU64Le(U64Le(n)) == n
  {
    var b := U64Le(n);
    assert b[..4] == U32Le(n % TWO_32);
    assert b[4..] == U32Le(n / TWO_32);
    U32LeRoundTrip(n % TWO_32);
    U32LeRoundTrip(n / TWO_32);
  }

  /** Little-endian encoding of a sequence of 32-bit words, as written one
      after another with `write_u32::<LittleEndian>`. */
  function U32sLe(ws: seq<u32>): (r: seq<byte>)
    ensures |r| == 4 * |ws|
  {
    if ws == [] then [] else U32sLe(ws[..|ws| - 1]) + U32Le(ws[|ws| - 1])
  }

  /** The k-th word of a little-endian word sequence reads back unchanged. */
  lemma {:induction false} U32sLeAt(ws: seq<u32>, k: nat)
    requires k < |ws|
    ensures U32sLe(ws)[4 * k .. 4 * k + 4] == U32Le(ws[k])
    ensures ReadU32Le(U32sLe(ws)[4 * k .. 4 * k + 4]) == ws[k]
  {
    var n := |ws|;
    var pre := ws[..n - 1];
    assert U32sLe(ws) == U32sLe(pre) + U32Le(ws[n - 1]);
    if k < n - 1 {
      U32sLeAt(pre, k);
      assert U32sLe(ws)[4 * k .. 4 * k + 4] == U32sLe(pre)[4 * k .. 4 * k + 4];
    } else {
      assert U32sLe(ws)[4 * k .. 4 * k + 4] == U32Le(ws[n - 1]);
    }
    U32LeRoundTrip(ws[k]);
  }

  lemma {:induction false} U32sLeAppend(ws: seq<u32>, w: u32)
    ensures U32sLe(ws + [w]) == U32sLe(ws) + U32Le(w)
  {
    assert (ws + [w])[..|ws|] == ws;
  }

  /** The chunks written one after another. */
  function Flatten<T>(chunks: seq<seq<T>>): seq<T> {
    if chunks == [] then [] else Flatten(chunks[..|chunks| - 1]) + chunks[|chunks| - 1]
  }

  lemma {:induction false} FlattenAppend<T>(chunks: seq<seq<T>>, c: seq<T>)
    ensures Flatten(chunks + [c]) == Flatten(chunks) + c
  {
    assert (chunks + [c])[..|chunks|] == chunks;
  }

  lemma {:induction false} FlattenPrefixStep<T>(chunks: seq<seq<T>>, k: nat)
    requires k < |chunks|
    ensures Flatten(chunks[..k + 1]) == Flatten(chunks[..k]) + chunks[k]
  {
    assert chunks[..k + 1][..k] == chunks[..k];
  }

  lemma {:induction false} FlattenLength<T>(chunks: seq<seq<T>>, w: nat)
    requires forall i :: 0 <= i < |chunks| ==> |chunks[i]| == w
    ensures |Flatten(chunks)| == w * |chunks|
  {
    if chunks != [] {
      var n := |chunks|;
      FlattenLength(chunks[..n - 1], w);
      assert w * n == w * (n - 1) + w;
    }
  }

  lemma {:induction false} MulLe(w: nat, a: nat, b: nat)
    requires a <= b
    ensures w * a <= w * b
  {
  }

  /** Chunks of one width `w` sit at multiples of `w`. */
  lemma {:induction false} FlattenAt<T>(chunks: seq<seq<T>>, w: nat, k: nat)
    requires forall i :: 0 <= i < |chunks| ==> |chunks[i]| == w
    requires k < |chunks|
    ensures |Flatten(chunks)| == w * |chunks|
    ensures w * k + w <= |Flatten(chunks)| && Flatten(chunks)[w * k..w * k + w] == chunks[k]
  {
    FlattenLength(chunks, w);
    var n := |chunks|;
    MulLe(w, k + 1, n);
    assert w * (k + 1) == w * k + w;
    var init := chunks[..n - 1];
    var a := Flatten(init);
    assert Flatten(chunks) == a + chunks[n - 1];
    FlattenLength(init, w);
    if k < n - 1 {
      FlattenAt(init, w, k);
      MulLe(w, k + 1, n - 1);
      assert w * (k + 1) == w * k + w;
      assert (a + chunks[n - 1])[w * k..w * k + w] == a[w * k..w * k + w];
    } else {
      assert |a| == w * k;
      assert (a + chunks[n - 1])[|a|..|a| + w] == chunks[n - 1];
    }
  }

  /** The `k`-th chunk of a uniform flattening that follows a prefix `a`. */
  lemma {:induction false} FlattenAtAfter<T>(a: seq<T>, chunks: seq<seq<T>>, w: nat, k: nat)
    requires k < |chunks| && forall i :: 0 <= i < |chunks| ==> |chunks[i]| == w
    ensures var o := |a| + w * k;
      o + w <= |a + Flatten(chunks)| && (a + Flatten(chunks))[o..o + w] == chunks[k]
  {
    var b := Flatten(chunks);
    FlattenAt(chunks, w, k);
    var q := w * k;
    AppendSlice(a, b, q, q + w);
  }

  lemma {:induction false} PrefixSlice<T>(a: seq<T>, b: seq<T>, i: nat, j: nat)
    requires i <= j <= |a|
    ensures (a + b)[i..j] == a[i..j]
  {
    assert forall x :: 0 <= x < j - i ==> (a + b)[i..j][x] == a[i..j][x];
  }

  lemma {:induction false} AppendSlice<T>(a: seq<T>, b: seq<T>, i: nat, j: nat)
    requires i <= j <= |b|
    ensures (a + b)[|a| + i..|a| + j] == b[i..j]
  {
    assert forall x :: 0 <= x < j - i ==> (a + b)[|a| + i..|a| + j][x] == b[i..j][x];
  }

  lemma {:induction false} SliceOfSlice<T>(s: seq<T>, o: nat, n: nat, i: nat, j: nat)
    requires o + n <= |s| && i <= j <= n
    ensures s[o..o + n][i..j] == s[o + i..o + j]
  {
    var a, b := s[o..o + n][i..j], s[o + i..o + j];
    forall k | 0 <= k < |a|
      ensures a[k] == b[k]
    {
      assert a[k] == s[o..o + n][i + k] == s[o + i + k];
    }
  }

  /** `iter().map(f).collect()`. */
  function MapSeq<A, B>(s: seq<A>, f: A -> B): (r: seq<B>)
    ensures |r| == |s| && forall k :: 0 <= k < |s| ==> r[k] == f(s[k])
  {
    seq(|s|, k requires 0 <= k < |s| => f(s[k]))
  }

  lemma {:induction false} MapSeqLast<A, B>(s: seq<A>, f: A -> B)
    requires s != []
    ensures MapSeq(s, f) == MapSeq(s[..|s| - 1], f) + [f(s[|s| - 1])]
  {
  }

  lemma {:induction false} MapSeqAppend<A, B>(s: seq<A>, x: A, f: A -> B)
    ensures MapSeq(s + [x], f) == MapSeq(s, f) + [f(x)]
  {
  }

  // ---------------------------------------------------------------------
  // Strings

  predicate StartsWith(s: string, prefix: string) {
    |prefix| <= |s| && s[..|prefix|] == prefix
  }

  predicate EndsWith(s: string, suffix: string) {
    |suffix| <= |s| && s[|s| - |suffix|..] == suffix
  }

  /** `str::find(c)`: the index of the first occurrence of `c`. */
  function FindChar(s: string, c: char): (r: Option<nat>)
    ensures r.None? <==> c !in s
    ensures r.Some? ==> r.value < |s| && s[r.value] == c && c !in s[..r.value]
  {
    if s == [] then None
    else if s[0] == c then Some(0)
    else match FindChar(s[1..], c)
      case None => None
      case Some(i) => assert s[1..][..i] == s[1..i + 1]; Some(i + 1)
  }

  /** `parts.join(sep)`. */
  function Join<T>(parts: seq<seq<T>>, sep: seq<T>): seq<T> {
    if |parts| == 0 then []
    else if |parts| == 1 then parts[0]
    else Join(parts[..|parts| - 1], sep) + sep + parts[|parts| - 1]
  }

  lemma {:induction false} JoinSingle<T>(p: seq<T>, sep: seq<T>)
    ensures Join([p], sep) == p
  {
  }

  lemma {:induction false} JoinAppend<T>(parts: seq<seq<T>>, p: seq<T>, sep: seq<T>)
    requires |parts| > 0
    ensures Join(parts + [p], sep) == Join(parts, sep) + sep + p
  {
    assert (parts + [p])[..|parts|] == parts;
  }

  lemma {:induction false} JoinCons<T>(p: seq<T>, parts: seq<seq<T>>, sep: seq<T>)
    requires |parts| > 0
    ensures Join([p] + parts, sep) == p + sep + Join(parts, sep)
  {
    var n := |parts|;
    if n == 1 {
      assert [p] + parts == [p, parts[0]];
      assert [p, parts[0]][..1] == [p];
    } else {
      var init := parts[..n - 1];
      assert ([p] + parts)[..n] == [p] + init;
      JoinCons(p, init, sep);
    }
  }

  /** How often `c` occurs in `s`. */
  function Count<T(==)>(s: seq<T>, c: T): nat {
    if s == [] then 0 else Count(s[..|s| - 1], c) + (if s[|s| - 1] == c then 1 else 0)
  }

  lemma {:induction false} CountAppend<T>(a: seq<T>, b: seq<T>, c: T)
    ensures Count(a + b, c) == Count(a, c) + Count(b, c)
  {
    if b != [] {
      var n := |b|;
      assert (a + b)[..|a| + n - 1] == a + b[..n - 1];
      CountAppend(a, b[..n - 1], c);
    } else {
      assert a + b == a;
    }
  }

  lemma {:induction false} CountAbsent<T>(s: seq<T>, c: T)
    requires c !in s
    ensures Count(s, c) == 0
  {
    if s != [] {
      assert c !in s[..|s| - 1];
      CountAbsent(s[..|s| - 1], c);
    }
  }

  /** Total length of `parts.join(sep)`. */
  function SumLengths<T>(parts: seq<seq<T>>): nat {
    if parts == [] then 0 else SumLengths(parts[..|parts| - 1]) + |parts[|parts| - 1]|
  }

  lemma {:induction false} JoinLength<T>(parts: seq<seq<T>>, sep: seq<T>)
    requires |parts| > 0
    ensures |Join(parts, sep)| == SumLengths(parts) + (|parts| - 1) * |sep|
  {
    if |parts| > 1 {
      JoinLength(parts[..|parts| - 1], sep);
    }
  }

  /** Part `k` sits in `parts.join(sep)` after the parts before it and
      `k` separators. */
  lemma {:induction false} JoinAt<T>(parts: seq<seq<T>>, sep: seq<T>, k: nat)
    requires k < |parts|
    ensures var o := SumLengths(parts[..k]) + k * |sep|;
      o + |parts[k]| <= |Join(parts, sep)| && Join(parts, sep)[o..o + |parts[k]|] == parts[k]
  {
    var n := |parts|;
    if n > 1 {
      var init := parts[..n - 1];
      var j := Join(init, sep);
      assert Join(parts, sep) == j + sep + parts[n - 1];
      JoinLength(init, sep);
      if k == n - 1 {
        assert parts[..k] == init;
        assert (n - 1) * |sep| == (n - 2) * |sep| + |sep|;
        AppendSlice(j + sep, parts[n - 1], 0, |parts[n - 1]|);
      } else {
        JoinAt(init, sep, k);
        assert init[..k] == parts[..k];
        var o := SumLengths(parts[..k]) + k * |sep|;
        assert j + sep + parts[n - 1] == j + (sep + parts[n - 1]);
        PrefixSlice(j, sep + parts[n - 1], o, o + |parts[k]|);
      }
    }
  }

  /** The bytes of an ASCII string. */
  function Ascii(s: string): (r: seq<byte>)
    requires forall i :: 0 <= i < |s| ==> s[i] as int < 128
    ensures |r| == |s| && forall i :: 0 <= i < |s| ==> r[i] as int == s[i] as int
  {
    seq(|s|, i requires 0 <= i < |s| => s[i] as int as byte)
  }

  predicate IsDigit(c: char) {
    '0' <= c <= '9'
  }

  function DigitChar(d: nat): (c: char)
    requires d < 10
    ensures IsDigit(c)
  {
    ['0', '1', '2', '3', '4', '5', '6', '7', '8', '9'][d]
  }

  function DigitValue(c: char): (d: nat)
    requires IsDigit(c)
    ensures d < 10
  {
    (c as int) - ('0' as int)
  }

  /** `n.to_string()` for an unsigned integer: decimal, no leading zeros. */
  function NatToString(n: nat): (s: string)
    ensures |s| > 0
    ensures forall i :: 0 <= i < |s| ==> IsDigit(s[i])
  {
    if n < 10 then [DigitChar(n)] else NatToString(n / 10) + [DigitChar(n % 10)]
  }

  /** The value of a non-empty string of decimal digits. */
  function ParseDecimal(s: string): nat
    requires forall i :: 0 <= i < |s| ==> IsDigit(s[i])
  {
    if s == [] then 0 else 10 * ParseDecimal(s[..|s| - 1]) + DigitValue(s[|s| - 1])
  }

  lemma {:induction false} NatToStringRoundTrip(n: nat)
    ensures ParseDecimal(NatToString(n)) == n
  {
    var s := NatToString(n);
    if n >= 10 {
      NatToStringRoundTrip(n / 10);
      assert s[..|s| - 1] == NatToString(n / 10);
    }
  }

  /** `str::replace(pat, rep)`: every non-overlapping occurrence of `pat`,
      scanning left to right, is replaced by `rep`. */
  function Replace(s: string, pat: string, rep: string): string
    requires |pat| > 0
    decreases |s|
  {
    if |s| == 0 then ""
    else if StartsWith(s, pat) then rep + Replace(s[|pat|..], pat, rep)
    else [s[0]] + Replace(s[1..], pat, rep)
  }

  /** A prefix that does not hold the first character of the pattern passes
      through `Replace` untouched. */
  lemma {:induction false} ReplaceSkip(a: string, t: string, pat: string, rep: string)
    requires |pat| > 0 && pat[0] !in a
    ensures Replace(a + t, pat, rep) == a + Replace(t, pat, rep)
  {
    if |a| > 0 {
      assert (a + t)[0] == a[0] != pat[0];
      assert !StartsWith(a + t, pat) by {
        if |pat| <= |a + t| {
          assert (a + t)[..|pat|][0] == a[0];
        }
      }
      assert (a + t)[1..] == a[1..] + t;
      ReplaceSkip(a[1..], t, pat, rep);
      assert [a[0]] + a[1..] == a;
    } else {
      assert a + t == t;
    }
  }

  lemma {:induction false} ReplaceHit(t: string, pat: string, rep: string)
    requires |pat| > 0
    ensures Replace(pat + t, pat, rep) == rep + Replace(t, pat, rep)
  {
    assert StartsWith(pat + t, pat);
    assert (pat + t)[|pat|..] == t;
  }

  /** A character where the pattern does not start is copied through. */
  lemma {:induction false} ReplaceMiss(c: char, t: string, pat: string, rep: string)
    requires |pat| > 0 && !StartsWith([c] + t, pat)
    ensures Replace([c] + t, pat, rep) == [c] + Replace(t, pat, rep)
  {
    assert ([c] + t)[1..] == t;
  }

  lemma {:induction false} ReplaceNone(a: string, pat: string, rep: string)
    requires |pat| > 0 && pat[0] !in a
    ensures Replace(a, pat, rep) == a
  {
    ReplaceSkip(a, "", pat, rep);
    assert a + "" == a;
  }
}
