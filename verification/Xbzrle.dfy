/** XOR-based zero run length encoding: the delta sent for a page the
    destination already has an older version of. */
module Xbzrle {
  import opened Common
  import opened ByteWords

  // ---- ULEB128, at most 14 bits

  /** uleb128_encode_small */
  function Uleb(n: nat): (r: seq<Byte>)
    requires n <= 0x3fff
    ensures 1 <= |r| <= 2
  {
    if n < 0x80 then [n] else [n % 0x80 + 0x80, n / 0x80]
  }

  /** uleb128_decode_small at position i: bytes used and value */
  function UlebAt(src: seq<Byte>, i: nat): (r: Option<(nat, nat)>)
    requires i + 1 < |src|
    ensures r.Some? ==> 1 <= r.value.0 <= 2
  {
    if src[i] < 0x80 then Some((1, src[i]))
    else if src[i + 1] >= 0x80 then None
    else Some((2, (src[i] as int) - 0x80 + (src[i + 1] as int) * 0x80))
  }

  /** A number below 0x80 takes one byte, others two; the top bit of the first
      byte says which, and the low seven bits come first. */
  lemma UlebFormat(n: nat)
    requires n <= 0x3fff
    ensures var r := Uleb(n);
      && |r| == (if n < 0x80 then 1 else 2) && (|r| == 2 <==> r[0] >= 0x80)
      && n == (r[0] as int) % 0x80 + if |r| == 2 then 0x80 * (r[1] as int) else 0
  {
    assert n / 0x80 * 0x80 + n % 0x80 == n;
  }

  lemma UlebRoundTrip(n: nat, src: seq<Byte>, i: nat)
    requires n <= 0x3fff && i + 1 < |src| && i + |Uleb(n)| <= |src|
    requires src[i..i + |Uleb(n)|] == Uleb(n)
    ensures UlebAt(src, i) == Some((|Uleb(n)|, n))
  {
    assert src[i] == src[i..i + |Uleb(n)|][0];
    if n >= 0x80 {
      assert src[i + 1] == src[i..i + 2][1];
    }
  }

  // ---- runs

  /** End of the run of equal bytes starting at i. */
  function EqualRun(old': seq<Byte>, new': seq<Byte>, i: nat): (j: nat)
    requires |old'| == |new'| && i <= |new'|
    ensures i <= j <= |new'|
    ensures forall k | i <= k < j :: old'[k] == new'[k]
    ensures j < |new'| ==> old'[j] != new'[j]
    decreases |new'| - i
  {
    if i < |new'| && old'[i] == new'[i] then EqualRun(old', new', i + 1) else i
  }

  /** End of the run of differing bytes starting at i. */
  function DifferRun(old': seq<Byte>, new': seq<Byte>, i: nat): (j: nat)
    requires |old'| == |new'| && i <= |new'|
    ensures i <= j <= |new'|
    ensures forall k | i <= k < j :: old'[k] != new'[k]
    ensures j < |new'| ==> old'[j] == new'[j]
    decreases |new'| - i
  {
    if i < |new'| && old'[i] != new'[i] then DifferRun(old', new', i + 1) else i
  }

  lemma {:induction false} EqualRunFrom(old': seq<Byte>, new': seq<Byte>, i: nat, m: nat)
    requires |old'| == |new'| && i <= m <= |new'| && forall k | i <= k < m :: old'[k] == new'[k]
    ensures EqualRun(old', new', i) == EqualRun(old', new', m)
    decreases m - i
  {
    if i < m {
      EqualRunFrom(old', new', i + 1, m);
    }
  }

  lemma {:induction false} DifferRunFrom(old': seq<Byte>, new': seq<Byte>, i: nat, m: nat)
    requires |old'| == |new'| && i <= m <= |new'| && forall k | i <= k < m :: old'[k] != new'[k]
    ensures DifferRun(old', new', i) == DifferRun(old', new', m)
    decreases m - i
  {
    if i < m {
      DifferRunFrom(old', new', i + 1, m);
    }
  }

  // ---- what the encoder produces

  /** The return value of xbzrle_encode_buffer: 0, -1, or a length. */
  datatype Encoding = Unchanged | Overflow | Encoded(bytes: seq<Byte>)

  function EncodeFrom(old': seq<Byte>, new': seq<Byte>, i: nat, out: seq<Byte>, dlen: int): Encoding
    requires |old'| == |new'| <= 0x3fff && i <= |new'|
    decreases |new'| - i
  {
    if i == |new'| then Encoded(out)
    else if |out| + 2 > dlen then Overflow
    else
      var j := EqualRun(old', new', i);
      if j - i == |new'| then Unchanged
      else if j == |new'| then Encoded(out)
      else
        var out1 := out + Uleb(j - i);
        if |out1| + 2 > dlen then Overflow
        else
          var k := DifferRun(old', new', j);
          var out2 := out1 + Uleb(k - j);
          if |out2| + (k - j) > dlen then Overflow
          else EncodeFrom(old', new', k, out2 + new'[j..k], dlen)
  }

  function Encode(old': seq<Byte>, new': seq<Byte>, dlen: int): Encoding
    requires |old'| == |new'| <= 0x3fff
  {
    EncodeFrom(old', new', 0, [], dlen)
  }

  // ---- what the decoder makes of it

  /** A pair of runs in a delta: where it ends, and the place in the page and
      the number of the bytes it copies. */
  datatype Runs = Runs(end: nat, at: nat, count: nat)

  /** The pair of runs at input position i and page position d, if the delta
      is well formed there. */
  function NextRuns(src: seq<Byte>, i: nat, size: nat, d: nat): (r: Option<Runs>)
    requires i < |src|
    ensures r.Some? ==> i + r.value.count < r.value.end <= |src| && r.value.at + r.value.count <= size
    ensures r.Some? ==> r.value.count > 0 && r.value.at >= d && (i != 0 ==> r.value.at > d)
  {
    if |src| - i < 2 then None
    else
      var z := UlebAt(src, i);
      if z.None? || (i != 0 && z.value.1 == 0) then None
      else
        var i1, d1 := i + z.value.0, d + z.value.1;
        if d1 > size || |src| - i1 < 2 then None
        else
          var n := UlebAt(src, i1);
          if n.None? || n.value.1 == 0 then None
          else
            var i2, count := i1 + n.value.0, n.value.1;
            if d1 + count > size || i2 + count > |src| then None else Some(Runs(i2 + count, d1, count))
  }

  /** Whether a delta was well formed, and what decoding left in the page. */
  datatype Decoding = Decoding(ok: bool, page: seq<Byte>)

  /** xbzrle_decode_buffer from input position i and page position d; a
      malformed delta is noticed only after the runs before it were copied. */
  function DecodeInto(src: seq<Byte>, i: nat, page: seq<Byte>, d: nat): Decoding
    requires i <= |src|
    decreases |src| - i
  {
    if i == |src| then Decoding(true, page)
    else
      match NextRuns(src, i, |page|, d)
      case None => Decoding(false, page)
      case Some(Runs(end, at, count)) =>
        DecodeInto(src, end, page[..at] + src[end - count..end] + page[at + count..], at + count)
  }

  function DecodeFrom(src: seq<Byte>, i: nat, page: seq<Byte>, d: nat): Option<seq<Byte>>
    requires i <= |src|
  {
    var r := DecodeInto(src, i, page, d);
    if r.ok then Some(r.page) else None
  }

  function Decode(src: seq<Byte>, page: seq<Byte>): Option<seq<Byte>> {
    DecodeFrom(src, 0, page, 0)
  }

  lemma {:induction false} DecodeKeepsSize(src: seq<Byte>, i: nat, page: seq<Byte>, d: nat)
    requires i <= |src|
    ensures |DecodeInto(src, i, page, d).page| == |page|
    decreases |src| - i
  {
    hide NextRuns;
    if i < |src| {
      var r := NextRuns(src, i, |page|, d);
      if r.Some? {
        var Runs(end, at, count) := r.value;
        DecodeKeepsSize(src, end, page[..at] + src[end - count..end] + page[at + count..], at + count);
      }
    }
  }

  // ---- round trip

  /** The encoder only appends, and stays within the output buffer. */
  lemma {:induction false} EncodePrefix(old': seq<Byte>, new': seq<Byte>, i: nat, out: seq<Byte>, dlen: int)
    requires |old'| == |new'| <= 0x3fff && i <= |new'| && |out| <= dlen
    ensures var e := EncodeFrom(old', new', i, out, dlen);
      e.Encoded? ==> out <= e.bytes && |e.bytes| <= dlen
    decreases |new'| - i
  {
    var e := EncodeFrom(old', new', i, out, dlen);
    if e.Encoded? && i < |new'| {
      var j := EqualRun(old', new', i);
      if j < |new'| {
        var k := DifferRun(old', new', j);
        EncodePrefix(old', new', k, out + Uleb(j - i) + Uleb(k - j) + new'[j..k], dlen);
      }
    }
  }

  /** bytes holds, from i to e, a pair of runs: zero equal bytes, then data. */
  predicate RunsAt(bytes: seq<Byte>, i: nat, e: nat, zero: nat, data: seq<Byte>)
    requires zero <= 0x3fff && |data| <= 0x3fff
  {
    var i1 := i + |Uleb(zero)|;
    var i2 := i1 + |Uleb(|data|)|;
    e == i2 + |data| <= |bytes| &&
    bytes[i..i1] == Uleb(zero) && bytes[i1..i2] == Uleb(|data|) && bytes[i2..e] == data
  }

  /** One pair of runs of the encoding, read back by the decoder. */
  lemma DecodeRuns(src: seq<Byte>, i: nat, e: nat, page: seq<Byte>, d: nat, zero: nat, data: seq<Byte>)
    requires zero <= 0x3fff && 0 < |data| <= 0x3fff && (i != 0 ==> zero > 0)
    requires d + zero + |data| <= |page| && RunsAt(src, i, e, zero, data)
    ensures DecodeFrom(src, i, page, d) ==
      DecodeFrom(src, e, page[..d + zero] + data + page[d + zero + |data|..], d + zero + |data|)
  {
    hide Uleb, UlebAt;
    UlebRoundTrip(zero, src, i);
    UlebRoundTrip(|data|, src, i + |Uleb(zero)|);
  }

  /** What is left to do, as one step of the encoder. */
  lemma EncodeStep(old': seq<Byte>, new': seq<Byte>, i: nat, out: seq<Byte>, dlen: int) returns (j: nat, k: nat, out': seq<Byte>)
    requires |old'| == |new'| <= 0x3fff && i < |new'| && |out| <= dlen
    requires EncodeFrom(old', new', i, out, dlen).Encoded? && EqualRun(old', new', i) < |new'|
    ensures j == EqualRun(old', new', i) && k == DifferRun(old', new', j) && i <= j < k <= |new'|
    ensures |out'| <= dlen && out' != [] && RunsAt(out', |out|, |out'|, j - i, new'[j..k])
    ensures EncodeFrom(old', new', k, out', dlen) == EncodeFrom(old', new', i, out, dlen)
  {
    hide Uleb, RunsAt;
    j := EqualRun(old', new', i);
    k := DifferRun(old', new', j);
    out' := out + Uleb(j - i) + Uleb(k - j) + new'[j..k];
    AppendedRuns(out, j - i, new'[j..k]);
  }

  lemma AppendedRuns(out: seq<Byte>, zero: nat, data: seq<Byte>)
    requires zero <= 0x3fff && |data| <= 0x3fff
    ensures var out' := out + Uleb(zero) + Uleb(|data|) + data; RunsAt(out', |out|, |out'|, zero, data)
  {
    hide Uleb;
  }

  lemma RunsInPrefix(out: seq<Byte>, bytes: seq<Byte>, i: nat, zero: nat, data: seq<Byte>)
    requires zero <= 0x3fff && |data| <= 0x3fff && out <= bytes && RunsAt(out, i, |out|, zero, data)
    ensures RunsAt(bytes, i, |out|, zero, data)
  {
    hide Uleb;
    assert bytes[..|out|] == out;
  }

  lemma PageAfterRuns(old': seq<Byte>, new': seq<Byte>, i: nat, j: nat, k: nat)
    requires |old'| == |new'| && i <= j <= k <= |new'| && forall m | i <= m < j :: old'[m] == new'[m]
    ensures var page := new'[..i] + old'[i..];
      page[..j] + new'[j..k] + page[k..] == new'[..k] + old'[k..]
  {
    var page := new'[..i] + old'[i..];
    assert page[..j] == new'[..j];
    assert page[k..] == old'[k..];
    assert new'[..j] + new'[j..k] == new'[..k];
  }

  /** The encoding ends with its last run of differing bytes. */
  lemma RoundTripDone(old': seq<Byte>, new': seq<Byte>, i: nat, out: seq<Byte>, dlen: int)
    requires |old'| == |new'| <= 0x3fff && i <= |new'| && EqualRun(old', new', i) == |new'|
    requires EncodeFrom(old', new', i, out, dlen).Encoded?
    ensures EncodeFrom(old', new', i, out, dlen).bytes == out
    ensures DecodeFrom(out, |out|, new'[..i] + old'[i..], i) == Some(new')
  {
    assert new'[..i] + old'[i..] == new';
  }

  lemma RoundTripStep(old': seq<Byte>, new': seq<Byte>, i: nat, out: seq<Byte>,
                      j: nat, k: nat, out': seq<Byte>, bytes: seq<Byte>)
    requires |old'| == |new'| <= 0x3fff && i <= j < k <= |new'|
    requires forall m | i <= m < j :: old'[m] == new'[m]
    requires out != [] ==> i < j
    requires RunsAt(bytes, |out|, |out'|, j - i, new'[j..k])
    requires DecodeFrom(bytes, |out'|, new'[..k] + old'[k..], k) == Some(new')
    ensures DecodeFrom(bytes, |out|, new'[..i] + old'[i..], i) == Some(new')
  {
    hide DecodeFrom, RunsAt;
    PageAfterRuns(old', new', i, j, k);
    DecodeRuns(bytes, |out|, |out'|, new'[..i] + old'[i..], i, j - i, new'[j..k]);
  }

  lemma {:induction false} RoundTripFrom(old': seq<Byte>, new': seq<Byte>, i: nat, out: seq<Byte>, dlen: int)
    requires |old'| == |new'| <= 0x3fff && i <= |new'| && |out| <= dlen
    requires EncodeFrom(old', new', i, out, dlen).Encoded?
    requires out != [] ==> i == |new'| || old'[i] == new'[i]
    ensures |out| <= |EncodeFrom(old', new', i, out, dlen).bytes|
    ensures DecodeFrom(EncodeFrom(old', new', i, out, dlen).bytes, |out|, new'[..i] + old'[i..], i) == Some(new')
    decreases |new'| - i
  {
    hide EncodeFrom, DecodeFrom, RunsAt;
    EncodePrefix(old', new', i, out, dlen);
    if EqualRun(old', new', i) == |new'| {
      RoundTripDone(old', new', i, out, dlen);
    } else {
      var j, k, out' := EncodeStep(old', new', i, out, dlen);
      EncodePrefix(old', new', k, out', dlen);
      RoundTripFrom(old', new', k, out', dlen);
      var bytes := EncodeFrom(old', new', i, out, dlen).bytes;
      RunsInPrefix(out', bytes, |out|, j - i, new'[j..k]);
      RoundTripStep(old', new', i, out, j, k, out', bytes);
    }
  }

  /** Decoding a delta over the old page gives the new page. */
  lemma RoundTrip(old': seq<Byte>, new': seq<Byte>, dlen: nat)
    requires |old'| == |new'| <= 0x3fff && Encode(old', new', dlen).Encoded?
    ensures Decode(Encode(old', new', dlen).bytes, old') == Some(new')
    ensures |Encode(old', new', dlen).bytes| <= dlen
  {
    RoundTripFrom(old', new', 0, [], dlen);
    EncodePrefix(old', new', 0, [], dlen);
    assert new'[..0] + old'[0..] == old';
  }

  /** The encoder reports an unchanged page exactly when the pages are equal,
      given room for the first run. */
  lemma UnchangedIffEqual(old': seq<Byte>, new': seq<Byte>, dlen: int)
    requires 0 < |old'| == |new'| <= 0x3fff && dlen >= 2
    ensures Encode(old', new', dlen).Unchanged? <==> old' == new'
    ensures old' != new' && Encode(old', new', dlen).Encoded? ==> Encode(old', new', dlen).bytes != []
  {
    var j := EqualRun(old', new', 0);
    if j < |new'| {
      var k := DifferRun(old', new', j);
      var out := Uleb(j) + Uleb(k - j) + new'[j..k];
      assert [] + Uleb(j) + Uleb(k - j) + new'[j..k] == out;
      if |[] + Uleb(j)| + 2 <= dlen && |out| <= dlen {
        NeverUnchangedLater(old', new', k, out, dlen);
        EncodePrefix(old', new', k, out, dlen);
      }
    }
  }

  lemma {:induction false} NeverUnchangedLater(old': seq<Byte>, new': seq<Byte>, i: nat, out: seq<Byte>, dlen: int)
    requires |old'| == |new'| <= 0x3fff && 0 < i <= |new'|
    ensures !EncodeFrom(old', new', i, out, dlen).Unchanged?
    decreases |new'| - i
  {
    if i < |new'| {
      var j := EqualRun(old', new', i);
      if j < |new'| {
        var k := DifferRun(old', new', j);
        NeverUnchangedLater(old', new', k, out + Uleb(j - i) + Uleb(k - j) + new'[j..k], dlen);
      }
    }
  }

  // ---- when the encoder overflows

  /** The runs of the page from i on, without a limit on their length. */
  function Whole(old': seq<Byte>, new': seq<Byte>, i: nat): seq<Byte>
    requires |old'| == |new'| <= 0x3fff && i <= |new'|
    decreases |new'| - i
  {
    var j := EqualRun(old', new', i);
    if j == |new'| then []
    else
      var k := DifferRun(old', new', j);
      Uleb(j - i) + Uleb(k - j) + new'[j..k] + Whole(old', new', k)
  }

  /** The encoder wants two bytes to spare where an equal run ends the page. */
  function Spare(old': seq<Byte>, new': seq<Byte>): nat
    requires |old'| == |new'|
  {
    if |new'| > 0 && old'[|new'| - 1] == new'[|new'| - 1] then 2 else 0
  }

  lemma {:induction false} OverflowFrom(old': seq<Byte>, new': seq<Byte>, i: nat, out: seq<Byte>, dlen: int)
    requires |old'| == |new'| <= 0x3fff && i <= |new'| && |out| <= dlen
    requires i == |new'| ==> Spare(old', new') == 0
    ensures var e := EncodeFrom(old', new', i, out, dlen);
      (e.Overflow? <==> |out| + |Whole(old', new', i)| + Spare(old', new') > dlen) &&
      (e.Encoded? ==> e.bytes == out + Whole(old', new', i))
    decreases |new'| - i
  {
    hide Uleb;
    if i < |new'| {
      var j := EqualRun(old', new', i);
      if j < |new'| {
        var k := DifferRun(old', new', j);
        var out' := out + Uleb(j - i) + Uleb(k - j) + new'[j..k];
        if |out'| <= dlen {
          OverflowFrom(old', new', k, out', dlen);
          assert out' + Whole(old', new', k) == out + Whole(old', new', i);
        }
      }
    }
  }

  /** The result is an overflow if and only if the runs, with two bytes to
      spare if the page ends with an equal run, do not fit; otherwise it is
      the runs. */
  lemma OverflowIff(old': seq<Byte>, new': seq<Byte>, dlen: nat)
    requires 0 < |old'| == |new'| <= 0x3fff
    ensures Encode(old', new', dlen).Overflow? <==> |Whole(old', new', 0)| + Spare(old', new') > dlen
    ensures Encode(old', new', dlen).Encoded? ==> Encode(old', new', dlen).bytes == Whole(old', new', 0)
  {
    OverflowFrom(old', new', 0, [], dlen);
  }

  // ---- which deltas the decoder takes, and what it makes of them

  /** Bytes of the number at i. */
  function Width(src: seq<Byte>, i: nat): nat
    requires i < |src|
  {
    if src[i] < 0x80 then 1 else 2
  }

  /** At i stands n, in one byte or in two. */
  predicate NumberAt(src: seq<Byte>, i: nat, n: int)
    requires i + 1 < |src|
  {
    if src[i] < 0x80 then n == src[i] as int
    else src[i + 1] < 0x80 && n == src[i] as int - 0x80 + 0x80 * (src[i + 1] as int)
  }

  /** At i stand the gap between d and the place r goes to, its length, and
      its bytes, all inside the delta and inside a page of that size.  A gap of
      none is allowed only at the start, a length of none nowhere; behind the
      gap as behind the start there must be two bytes. */
  predicate WellFormed(src: seq<Byte>, i: nat, size: nat, d: nat, r: Runs) {
    && i + 2 <= |src| && NumberAt(src, i, r.at - d) && (i != 0 ==> r.at != d)
    && var j := i + Width(src, i);
       j + 2 <= |src| && NumberAt(src, j, r.count) && r.count > 0 &&
       r.end == j + Width(src, j) + r.count <= |src| && r.at + r.count <= size
  }

  lemma NextIff(src: seq<Byte>, i: nat, size: nat, d: nat, r: Runs)
    requires i < |src|
    ensures NextRuns(src, i, size, d) == Some(r) <==> WellFormed(src, i, size, d, r)
  {
  }

  /** The delta from i on is these runs and nothing else. */
  predicate Parses(src: seq<Byte>, i: nat, size: nat, d: nat, runs: seq<Runs>)
    decreases |runs|
  {
    if runs == [] then i == |src|
    else
      var r := runs[0];
      i < |src| && WellFormed(src, i, size, d, r) && Parses(src, r.end, size, r.at + r.count, runs[1..])
  }

  lemma {:induction false} ParsedFrom(src: seq<Byte>, i: nat, page: seq<Byte>, d: nat) returns (runs: seq<Runs>)
    requires i <= |src|
    ensures DecodeInto(src, i, page, d).ok ==> Parses(src, i, |page|, d, runs)
    decreases |src| - i
  {
    hide NextRuns, WellFormed;
    runs := [];
    if i < |src| {
      var n := NextRuns(src, i, |page|, d);
      if n.Some? {
        var Runs(end, at, count) := n.value;
        NextIff(src, i, |page|, d, n.value);
        var rest := ParsedFrom(src, end, page[..at] + src[end - count..end] + page[at + count..], at + count);
        runs := [n.value] + rest;
        assert runs[1..] == rest;
      }
    }
  }

  /** Byte k of the page comes from run m. */
  predicate From(runs: seq<Runs>, m: nat, k: nat)
    requires m < |runs|
  {
    runs[m].at <= k < runs[m].at + runs[m].count
  }

  /** Where byte k of the page stands in the delta. */
  function Source(runs: seq<Runs>, m: nat, k: nat): int
    requires m < |runs|
  {
    runs[m].end - runs[m].count + (k - runs[m].at)
  }

  /** The bytes of a page of that size after the runs. */
  ghost predicate Holds(src: seq<Byte>, page: seq<Byte>, runs: seq<Runs>, new': seq<Byte>) {
    && |new'| == |page|
    && (forall m, k | 0 <= m < |runs| && 0 <= k < |page| && From(runs, m, k) ::
          0 <= Source(runs, m, k) < |src| && new'[k] == src[Source(runs, m, k)])
    && (forall k | 0 <= k < |page| && (forall m | 0 <= m < |runs| :: !From(runs, m, k)) :: new'[k] == page[k])
  }

  lemma {:induction false} RunsAscend(src: seq<Byte>, i: nat, size: nat, d: nat, runs: seq<Runs>)
    requires Parses(src, i, size, d, runs)
    ensures forall m | 0 <= m < |runs| :: d <= runs[m].at && runs[m].at + runs[m].count <= size
    decreases |runs|
  {
    if runs != [] {
      RunsAscend(src, runs[0].end, size, runs[0].at + runs[0].count, runs[1..]);
      assert forall m | 0 < m < |runs| :: runs[m] == runs[1..][m - 1];
    }
  }

  lemma {:induction false} DecodesAs(src: seq<Byte>, i: nat, page: seq<Byte>, d: nat, runs: seq<Runs>)
    requires i <= |src| && Parses(src, i, |page|, d, runs)
    ensures var o := DecodeInto(src, i, page, d); o.ok && Holds(src, page, runs, o.page)
    decreases |runs|
  {
    hide NextRuns, WellFormed;
    if runs != [] {
      var r, rest := runs[0], runs[1..];
      NextIff(src, i, |page|, d, r);
      var page' := page[..r.at] + src[r.end - r.count..r.end] + page[r.at + r.count..];
      DecodesAs(src, r.end, page', r.at + r.count, rest);
      RunsAscend(src, r.end, |page|, r.at + r.count, rest);
      OneMoreRun(src, page, page', runs, DecodeInto(src, r.end, page', r.at + r.count).page);
    }
  }

  lemma OneMoreRun(src: seq<Byte>, page: seq<Byte>, page': seq<Byte>, runs: seq<Runs>, new': seq<Byte>)
    requires runs != [] && runs[0].count <= runs[0].end <= |src| && runs[0].at + runs[0].count <= |page|
    requires page' == page[..runs[0].at] + src[runs[0].end - runs[0].count..runs[0].end] + page[runs[0].at + runs[0].count..]
    requires Holds(src, page', runs[1..], new')
    requires forall m | 0 <= m < |runs[1..]| :: runs[0].at + runs[0].count <= runs[1..][m].at
    ensures Holds(src, page, runs, new')
  {
    var rest := runs[1..];
    forall m, k | 0 <= m < |runs| && 0 <= k < |page| && From(runs, m, k)
      ensures 0 <= Source(runs, m, k) < |src| && new'[k] == src[Source(runs, m, k)]
    {
      if m > 0 {
        assert rest[m - 1] == runs[m] && From(rest, m - 1, k) && Source(rest, m - 1, k) == Source(runs, m, k);
      } else {
        assert forall n | 0 <= n < |rest| :: !From(rest, n, k);
        assert new'[k] == page'[k];
      }
    }
    forall k | 0 <= k < |page| && (forall m | 0 <= m < |runs| :: !From(runs, m, k))
      ensures new'[k] == page[k]
    {
      forall n | 0 <= n < |rest|
        ensures !From(rest, n, k)
      {
        assert rest[n] == runs[n + 1] && !From(runs, n + 1, k);
      }
      assert !From(runs, 0, k);
    }
  }

  /** Where decoding ends in the page, or -1. */
  function EndFrom(src: seq<Byte>, i: nat, size: nat, d: nat): int
    requires i <= |src|
    decreases |src| - i
  {
    if i == |src| then d
    else
      match NextRuns(src, i, size, d)
      case None => -1
      case Some(r) => EndFrom(src, r.end, size, r.at + r.count)
  }

  /** Behind the last run, or where it began if there is none. */
  lemma {:induction false} EndsBehind(src: seq<Byte>, i: nat, size: nat, d: nat, runs: seq<Runs>)
    requires i <= |src| && Parses(src, i, size, d, runs)
    ensures EndFrom(src, i, size, d) == if runs == [] then d else runs[|runs| - 1].at + runs[|runs| - 1].count
    decreases |runs|
  {
    hide NextRuns, WellFormed;
    if runs != [] {
      var r := runs[0];
      NextIff(src, i, size, d, r);
      EndsBehind(src, r.end, size, r.at + r.count, runs[1..]);
    }
  }

  /** The decoder takes a delta if and only if it is a string of well-formed
      runs. */
  lemma AcceptedIff(src: seq<Byte>, page: seq<Byte>)
    ensures Decode(src, page).Some? <==> exists runs :: Parses(src, 0, |page|, 0, runs)
  {
    var found := ParsedFrom(src, 0, page, 0);
    if runs :| Parses(src, 0, |page|, 0, runs) {
      DecodesAs(src, 0, page, 0, runs);
    }
  }

  /** It then puts the bytes of every run in its place and keeps the others. */
  lemma DecodedBytes(src: seq<Byte>, page: seq<Byte>, runs: seq<Runs>)
    requires Parses(src, 0, |page|, 0, runs)
    ensures Decode(src, page).Some? && Holds(src, page, runs, Decode(src, page).value)
  {
    DecodesAs(src, 0, page, 0, runs);
  }

  // ---- the loops

  /** Scan of a run of equal bytes, a word at a time where possible. */
  method ScanEqual(old': seq<Byte>, new': seq<Byte>, start: nat) returns (i: nat)
    requires |old'| == |new'| && start <= |new'|
    ensures i == EqualRun(old', new', start)
  {
    i := start;
    var res := (|new'| - i) % WORD;
    ghost var words := (|new'| - i) / WORD;
    while res > 0 && old'[i] == new'[i]
      invariant start <= i <= |new'| && 0 <= res && |new'| - i == words * WORD + res
      invariant forall k | start <= k < i :: old'[k] == new'[k]
    {
      i, res := i + 1, res - 1;
    }
    if res == 0 {
      while i < |new'| && old'[i..i + WORD] == new'[i..i + WORD]
        invariant start <= i <= |new'| && |new'| - i == words * WORD
        invariant forall k | start <= k < i :: old'[k] == new'[k]
      {
        SameSlice(old', new', i);
        i, words := i + WORD, words - 1;
      }
      while i < |new'| && old'[i] == new'[i]
        invariant start <= i <= |new'|
        invariant forall k | start <= k < i :: old'[k] == new'[k]
      {
        i := i + 1;
      }
    }
    EqualRunFrom(old', new', start, i);
    assert EqualRun(old', new', i) == i;
  }

  lemma SameSlice(s: seq<Byte>, t: seq<Byte>, i: nat)
    requires i + WORD <= |s| == |t| && s[i..i + WORD] == t[i..i + WORD]
    ensures forall k | i <= k < i + WORD :: s[k] == t[k]
  {
    forall k | i <= k < i + WORD
      ensures s[k] == t[k]
    {
      assert s[i..i + WORD][k - i] == t[i..i + WORD][k - i];
    }
  }

  /** Scan of a run of differing bytes; a word is skipped when no byte of the
      exclusive-or is zero. */
  method ScanDiffer(old': seq<Byte>, new': seq<Byte>, start: nat) returns (i: nat)
    requires |old'| == |new'| && start <= |new'|
    ensures i == DifferRun(old', new', start)
  {
    hide ZeroByteTest, WordAt;
    i := start;
    var res := (|new'| - i) % WORD;
    ghost var words := (|new'| - i) / WORD;
    while res > 0 && old'[i] != new'[i]
      invariant start <= i <= |new'| && 0 <= res && |new'| - i == words * WORD + res
      invariant forall k | start <= k < i :: old'[k] != new'[k]
    {
      i, res := i + 1, res - 1;
    }
    if res == 0 {
      while i < |new'|
        invariant start <= i <= |new'| && |new'| - i == words * WORD
        invariant forall k | start <= k < i :: old'[k] != new'[k]
      {
        XorFindsEqual(old', new', i);
        if ZeroByteTest(WordAt(old', i) ^ WordAt(new', i)) {
          while old'[i] != new'[i]
            invariant start <= i < |new'|
            invariant forall k | start <= k < i :: old'[k] != new'[k]
            invariant exists k | i <= k < |new'| :: old'[k] == new'[k]
            decreases |new'| - i
          {
            i := i + 1;
          }
          break;
        }
        i, words := i + WORD, words - 1;
      }
    }
    DifferRunFrom(old', new', start, i);
    assert DifferRun(old', new', i) == i;
  }

  /** xbzrle_encode_buffer: 0 for an unchanged page, -1 on overflow, else the
      length of the encoding left in dst. */
  method EncodeBuffer(old': seq<Byte>, new': seq<Byte>, dlen: int) returns (ret: int, dst: seq<Byte>)
    requires |old'| == |new'| <= 0x3fff
    ensures match Encode(old', new', dlen)
      case Unchanged => ret == 0
      case Overflow => ret == -1
      case Encoded(bytes) => ret == |dst| && dst == bytes
  {
    hide Uleb, EqualRun, DifferRun;
    var i := 0;
    dst := [];
    while i < |new'|
      invariant 0 <= i <= |new'|
      invariant EncodeFrom(old', new', i, dst, dlen) == Encode(old', new', dlen)
    {
      if |dst| + 2 > dlen {
        return -1, dst;
      }
      var j := ScanEqual(old', new', i);
      RunBounds(old', new', i, j);
      var zrunLen := j - i;
      if zrunLen == |new'| {
        return 0, dst;
      }
      if j == |new'| {
        return |dst|, dst;
      }
      dst := dst + Uleb(zrunLen);
      if |dst| + 2 > dlen {
        return -1, dst;
      }
      var k := ScanDiffer(old', new', j);
      RunBounds(old', new', i, j);
      dst := dst + Uleb(k - j);
      if |dst| + (k - j) > dlen {
        return -1, dst;
      }
      dst := dst + new'[j..k];
      i := k;
    }
    return |dst|, dst;
  }

  lemma RunBounds(old': seq<Byte>, new': seq<Byte>, i: nat, j: nat)
    requires |old'| == |new'| && i <= |new'| && j == EqualRun(old', new', i)
    ensures i <= j <= |new'| && (j < |new'| ==> j < DifferRun(old', new', j) <= |new'|)
  {
  }

  method CopyInto(src: seq<Byte>, i: nat, count: nat, dst: array<Byte>, d: nat)
    requires i + count <= |src| && d + count <= dst.Length
    modifies dst
    ensures dst[..] == old(dst[..])[..d] + src[i..i + count] + old(dst[..])[d + count..]
  {
    forall k | 0 <= k < count {
      dst[d + k] := src[i + k];
    }
  }

  /** The part of xbzrle_decode_buffer's loop that reads the two lengths. */
  method ReadRuns(src: seq<Byte>, start: nat, size: nat, place: nat) returns (r: Option<Runs>)
    requires start < |src|
    ensures r == NextRuns(src, start, size, place)
  {
    hide UlebAt;
    var i, d := start, place;
    if |src| - i < 2 {
      return None;
    }
    var z := UlebAt(src, i);
    if z.None? || (i != 0 && z.value.1 == 0) {
      return None;
    }
    i, d := i + z.value.0, d + z.value.1;
    if d > size || |src| - i < 2 {
      return None;
    }
    var n := UlebAt(src, i);
    if n.None? || n.value.1 == 0 {
      return None;
    }
    i := i + n.value.0;
    var count := n.value.1;
    if d + count > size || i + count > |src| {
      return None;
    }
    return Some(Runs(i + count, d, count));
  }

  lemma DecodeStep(src: seq<Byte>, i: nat, page: seq<Byte>, d: nat)
    requires i < |src|
    ensures match NextRuns(src, i, |page|, d)
      case None => DecodeInto(src, i, page, d) == Decoding(false, page) && EndFrom(src, i, |page|, d) == -1
      case Some(Runs(end, at, count)) =>
        && DecodeInto(src, i, page, d) == DecodeInto(src, end, page[..at] + src[end - count..end] + page[at + count..], at + count)
        && EndFrom(src, i, |page|, d) == EndFrom(src, end, |page|, at + count)
  {
    hide NextRuns;
  }

  lemma DecodeDone(src: seq<Byte>, page: seq<Byte>, d: nat)
    ensures DecodeInto(src, |src|, page, d) == Decoding(true, page) && EndFrom(src, |src|, |page|, d) == d
  {
  }

  /** xbzrle_decode_buffer, in place on the destination page; it returns where
      in the page the last run ends. */
  method DecodeBuffer(src: seq<Byte>, dst: array<Byte>) returns (ret: int)
    modifies dst
    ensures Decoding(ret != -1, dst[..]) == DecodeInto(src, 0, old(dst[..]), 0)
    ensures -1 <= ret <= dst.Length && ret == EndFrom(src, 0, dst.Length, 0)
  {
    hide NextRuns, DecodeInto, EndFrom;
    var i, d := 0, 0;
    ghost var all := DecodeInto(src, 0, dst[..], 0);
    while i < |src|
      invariant 0 <= i <= |src| && 0 <= d <= dst.Length
      invariant DecodeInto(src, i, dst[..], d) == all && EndFrom(src, i, dst.Length, d) == EndFrom(src, 0, dst.Length, 0)
    {
      DecodeStep(src, i, dst[..], d);
      var runs := ReadRuns(src, i, dst.Length, d);
      if runs.None? {
        return -1;
      }
      var Runs(end, at, count) := runs.value;
      CopyInto(src, end - count, count, dst, at);
      i, d := end, at + count;
    }
    DecodeDone(src, dst[..], d);
    ret := d;
  }
}
