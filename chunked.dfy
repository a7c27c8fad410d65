/**
 * The chunked transfer coding the example server writes its responses in (section 7.1 of
 * RFC 9112): each body fragment becomes one chunk, its size in lowercase hexadecimal, CRLF,
 * the bytes, CRLF; completion writes the last chunk and an empty trailer section, "0" CRLF
 * CRLF. A chunk reader for the same coding is the independent definition the framing is
 * checked against.
 */
module ChunkedCoding {

  import opened Wrappers
  import opened JsValues

  const CR: Byte := 0x0D
  const LF: Byte := 0x0A
  const CRLF: Bytes := [CR, LF]

  // ---------------------------------------------------------------------------------------
  // Hexadecimal sizes
  // ---------------------------------------------------------------------------------------

  /** HEXDIG of RFC 5234, either case. */
  predicate IsHexDigit(c: Byte)
  {
    0x30 <= c <= 0x39 || 0x61 <= c <= 0x66 || 0x41 <= c <= 0x46
  }

  predicate IsLowerHexDigit(c: Byte)
  {
    0x30 <= c <= 0x39 || 0x61 <= c <= 0x66
  }

  predicate AllHexDigits(s: Bytes)
  {
    forall k :: 0 <= k < |s| ==> IsHexDigit(s[k])
  }

  /** The digit `Number.prototype.toString(16)` writes for a value below 16. */
  function HexDigit(d: nat): (c: Byte)
    requires d < 16
    ensures IsLowerHexDigit(c)
  {
    if d < 10 then (0x30 + d) as Byte else (0x61 + d - 10) as Byte
  }

  function DigitValue(c: Byte): (d: nat)
    requires IsHexDigit(c)
    ensures d < 16
  {
    if c <= 0x39 then c as int - 0x30
    else if c >= 0x61 then c as int - 0x61 + 10
    else c as int - 0x41 + 10
  }

  /** `n.toString(16)`: lowercase digits, and a leading zero only for zero itself. */
  function Hex(n: nat): (s: Bytes)
    ensures |s| > 0
    ensures forall k :: 0 <= k < |s| ==> IsLowerHexDigit(s[k])
    ensures s[0] == 0x30 <==> n == 0
  {
    if n < 16 then [HexDigit(n)] else Hex(n / 16) + [HexDigit(n % 16)]
  }

  /** The number a string of hexadecimal digits denotes. */
  function HexValue(s: Bytes): nat
    requires AllHexDigits(s)
  {
    if s == [] then 0 else HexValue(s[..|s| - 1]) * 16 + DigitValue(s[|s| - 1])
  }

  lemma DigitValueOfHexDigit(d: nat)
    requires d < 16
    ensures DigitValue(HexDigit(d)) == d
  {
  }

  lemma HexValueSnoc(p: Bytes, c: Byte)
    requires AllHexDigits(p) && IsHexDigit(c)
    ensures AllHexDigits(p + [c]) && HexValue(p + [c]) == HexValue(p) * 16 + DigitValue(c)
  {
    var s := p + [c];
    assert s[..|s| - 1] == p;
  }

  lemma {:induction false} HexIsDigits(n: nat)
    ensures AllHexDigits(Hex(n))
  {
  }

  /** Reading back the size a chunk header was written with gives the size. */
  lemma {:induction false} HexRoundTrip(n: nat)
    ensures AllHexDigits(Hex(n)) && HexValue(Hex(n)) == n
  {
    HexIsDigits(n);
    var d := n % 16;
    DigitValueOfHexDigit(d);
    if n < 16 {
      HexValueSnoc([], HexDigit(n));
      assert Hex(n) == [] + [HexDigit(n)];
    } else {
      var q := n / 16;
      HexRoundTrip(q);
      HexValueSnoc(Hex(q), HexDigit(d));
      assert Hex(n) == Hex(q) + [HexDigit(d)];
      assert q * 16 + d == n;
    }
  }

  /** The form `toString(16)` writes: lowercase digits without a leading zero. */
  predicate Canonical(s: Bytes)
  {
    |s| > 0 && (forall k :: 0 <= k < |s| ==> IsLowerHexDigit(s[k])) && (|s| > 1 ==> s[0] != 0x30)
  }

  lemma {:induction false} CanonicalIsPositive(s: Bytes)
    requires Canonical(s) && s[0] != 0x30
    ensures AllHexDigits(s) && HexValue(s) >= 1
    decreases |s|
  {
    if |s| > 1 {
      CanonicalIsPositive(s[..|s| - 1]);
    }
  }

  /** Every canonical digit string is what `toString(16)` writes for its value. */
  lemma {:induction false} HexCanonical(s: Bytes)
    requires Canonical(s)
    ensures AllHexDigits(s) && Hex(HexValue(s)) == s
    decreases |s|
  {
    var p := s[..|s| - 1];
    if |s| > 1 {
      assert Canonical(p) && p[0] != 0x30;
      CanonicalIsPositive(p);
      HexCanonical(p);
      var v := HexValue(s);
      assert v / 16 == HexValue(p) && v % 16 == DigitValue(s[|s| - 1]);
      assert s == p + [s[|s| - 1]];
    }
  }

  // ---------------------------------------------------------------------------------------
  // Writing chunks
  // ---------------------------------------------------------------------------------------

  /** What the `data` listener writes for a body fragment. */
  function ChunkFrame(data: Bytes): (f: Bytes)
    ensures |f| == |Hex(|data|)| + |data| + 4
    ensures f[..|Hex(|data|)|] == Hex(|data|)
    ensures f[|Hex(|data|)| + 2 .. |f| - 2] == data
  {
    Hex(|data|) + CRLF + data + CRLF
  }

  /** What the `message_complete` listener writes: the last chunk and the end of the trailers. */
  function LastChunk(): (b: Bytes)
    ensures b == Hex(0) + CRLF + CRLF
  {
    [0x30] + CRLF + CRLF
  }

  /** The body the server writes for a message whose body arrives as `frags`. */
  function Framed(frags: seq<Bytes>): Bytes
  {
    if frags == [] then LastChunk() else ChunkFrame(frags[0]) + Framed(frags[1..])
  }

  /** Whatever the fragments, the body the server writes ends with the last chunk. */
  lemma {:induction false} FramedEndsWithLastChunk(frags: seq<Bytes>)
    ensures var b := Framed(frags); |b| >= 5 && b[|b| - 5 ..] == LastChunk()
    decreases |frags|
  {
    if frags != [] {
      FramedEndsWithLastChunk(frags[1..]);
      var f, more := ChunkFrame(frags[0]), Framed(frags[1..]);
      assert (f + more)[|f + more| - 5 ..] == more[|more| - 5 ..];
    }
  }

  /** An empty fragment would be framed exactly as the last chunk, ending the body early. */
  lemma EmptyFragmentIsLastChunk()
    ensures ChunkFrame([]) == LastChunk()
  {
  }

  // ---------------------------------------------------------------------------------------
  // Reading chunks
  // ---------------------------------------------------------------------------------------

  /** The length of the run of hexadecimal digits that `s` starts with. */
  function HexRunLength(s: Bytes): (k: nat)
    ensures k <= |s|
  {
    if s == [] || !IsHexDigit(s[0]) then 0 else 1 + HexRunLength(s[1..])
  }

  lemma {:induction false} HexRunIsDigits(s: Bytes)
    ensures AllHexDigits(s[..HexRunLength(s)])
    decreases |s|
  {
    if s != [] && IsHexDigit(s[0]) {
      HexRunIsDigits(s[1..]);
      var k := HexRunLength(s);
      assert s[..k] == [s[0]] + s[1..][..k - 1];
    }
  }

  lemma {:induction false} HexRunOfDigits(digits: Bytes, rest: Bytes)
    requires AllHexDigits(digits)
    requires rest != [] && !IsHexDigit(rest[0])
    ensures HexRunLength(digits + rest) == |digits|
    decreases |digits|
  {
    var s := digits + rest;
    if digits == [] {
      assert s == rest;
    } else {
      assert s[0] == digits[0];
      assert s[1..] == digits[1..] + rest;
      assert AllHexDigits(digits[1..]) by {
        forall k | 0 <= k < |digits| - 1 ensures IsHexDigit(digits[1..][k]) {
          assert digits[1..][k] == digits[k + 1];
        }
      }
      HexRunOfDigits(digits[1..], rest);
    }
  }

  /**
   * A chunk without extensions at the front of `s`: its data and what follows it. A zero
   * size reads the last chunk together with an empty trailer section.
   */
  function ReadChunk(s: Bytes): (r: Option<(Bytes, Bytes)>)
    ensures r.Some? ==> |r.value.1| < |s|
  {
    var k := HexRunLength(s);
    if k == 0 then None
    else
      HexRunIsDigits(s);
      var size := HexValue(s[..k]);
      if |s| < k + 2 + size + 2 then None
      else if s[k .. k + 2] != CRLF || s[k + 2 + size .. k + 4 + size] != CRLF then None
      else Some((s[k + 2 .. k + 2 + size], s[k + 4 + size ..]))
  }

  /** A whole chunked body: the data of its chunks, when it ends with the last chunk. */
  function DecodeBody(s: Bytes): Option<seq<Bytes>>
    decreases |s|
  {
    match ReadChunk(s)
    case None => None
    case Some((data, rest)) =>
      if data == [] then (if rest == [] then Some([]) else None)
      else
        match DecodeBody(rest)
        case None => None
        case Some(more) => Some([data] + more)
  }

  /** The pieces of a size line, its data and what follows, as slices of the whole. */
  lemma FrameSlices(h: Bytes, data: Bytes, rest: Bytes)
    ensures var s, k, n := h + (CRLF + data + CRLF + rest), |h|, |data|;
      && |s| == k + 4 + n + |rest|
      && s[..k] == h
      && s[k .. k + 2] == CRLF
      && s[k + 2 .. k + 2 + n] == data
      && s[k + 2 + n .. k + 4 + n] == CRLF
      && s[k + 4 + n ..] == rest
  {
    var tail := CRLF + data + CRLF + rest;
    var s, k, n := h + tail, |h|, |data|;
    assert s[k ..] == tail;
    assert tail[..2] == CRLF;
    assert tail[2 .. 2 + n] == data;
    assert tail[2 + n .. 4 + n] == CRLF;
    assert tail[4 + n ..] == rest;
  }

  /**
   * A chunk written for `data` reads back as `data`, whatever follows it. The fragment is the
   * byte sequence the chunk's size was computed from (see the README on text conversion).
   */
  lemma ReadChunkFrame(data: Bytes, rest: Bytes)
    ensures ReadChunk(ChunkFrame(data) + rest) == Some((data, rest))
  {
    var h := Hex(|data|);
    assert ChunkFrame(data) + rest == h + (CRLF + data + CRLF + rest);
    HexRoundTrip(|data|);
    ReadSizedChunk(h, data, rest);
  }

  /** A size line whose digits denote `|data|`, then the data: the reader returns the data. */
  lemma ReadSizedChunk(h: Bytes, data: Bytes, rest: Bytes)
    requires h != [] && AllHexDigits(h) && HexValue(h) == |data|
    ensures ReadChunk(h + (CRLF + data + CRLF + rest)) == Some((data, rest))
  {
    HexRunOfDigits(h, CRLF + data + CRLF + rest);
    FrameSlices(h, data, rest);
  }

  /**
   * The body the server writes decodes to the fragments it was written from, for fragments
   * whose bytes are written as they arrived.
   */
  lemma {:induction false} DecodeFramed(frags: seq<Bytes>)
    requires forall k :: 0 <= k < |frags| ==> frags[k] != []
    ensures DecodeBody(Framed(frags)) == Some(frags)
    decreases |frags|
  {
    if frags == [] {
      ReadChunkFrame([], []);
      assert LastChunk() == ChunkFrame([]) + [];
      DecodeLastChunk(LastChunk());
    } else {
      var s, more := Framed(frags), Framed(frags[1..]);
      assert s == ChunkFrame(frags[0]) + more;
      ReadChunkFrame(frags[0], more);
      DecodeFramed(frags[1..]);
      DecodeNextChunk(s, frags[0], more, frags[1..]);
      assert [frags[0]] + frags[1..] == frags;
    }
  }

  /** A body that is only the last chunk decodes to no fragments. */
  lemma DecodeLastChunk(s: Bytes)
    requires ReadChunk(s) == Some(([], []))
    ensures DecodeBody(s) == Some([])
  {
  }

  /** A body that starts with a chunk of data decodes to that data, then the rest's fragments. */
  lemma DecodeNextChunk(s: Bytes, data: Bytes, rest: Bytes, more: seq<Bytes>)
    requires ReadChunk(s) == Some((data, rest)) && data != []
    requires DecodeBody(rest) == Some(more)
    ensures DecodeBody(s) == Some([data] + more)
  {
  }
}
