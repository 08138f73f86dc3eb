/**
 * Reassembly of UTF-8 over arbitrary chunking: the `utf8_tail` logic of `broadcast_task` in `src/pty.rs`.
 * Well-formedness is that of section 4 of RFC 3629.
 */
module Utf8Stream {

  type Byte = b: nat | b < 256

  type Bytes = seq<Byte>

  predicate Continues(b: Byte) {
    0x80 <= b <= 0xBF
  }

  predicate Second(first: Byte, b: Byte) {
    if first == 0xE0 then 0xA0 <= b <= 0xBF
    else if first == 0xED then 0x80 <= b <= 0x9F
    else if first == 0xF0 then 0x90 <= b <= 0xBF
    else if first == 0xF4 then 0x80 <= b <= 0x8F
    else Continues(b)
  }

  /** Length announced by a first byte, or 0 if it cannot begin a character. */
  function Announced(b: Byte): nat {
    if b <= 0x7F then 1
    else if 0xC2 <= b <= 0xDF then 2
    else if 0xE0 <= b <= 0xEF then 3
    else if 0xF0 <= b <= 0xF4 then 4
    else 0
  }

  /** Length of the well-formed character at position `i`, or 0 if there is none. */
  function CharLen(s: Bytes, i: nat): (n: nat)
    requires i <= |s|
    ensures n <= 4 && i + n <= |s|
  {
    if i == |s| then 0
    else
      var n := Announced(s[i]);
      if i + n <= |s|
         && (n >= 2 ==> Second(s[i], s[i + 1]))
         && (n >= 3 ==> Continues(s[i + 2]))
         && (n >= 4 ==> Continues(s[i + 3]))
      then n else 0
  }

  /** From position `i` on, the bytes are a sequence of well-formed characters. */
  predicate ValidFrom(s: Bytes, i: nat)
    requires i <= |s|
    decreases |s| - i
  {
    i == |s| || (CharLen(s, i) > 0 && ValidFrom(s, i + CharLen(s, i)))
  }

  predicate Valid(s: Bytes) {
    ValidFrom(s, 0)
  }

  /** `Utf8Error::valid_up_to`, and the length if there is no error. */
  function ValidUpTo(s: Bytes, i: nat): (v: nat)
    requires i <= |s|
    ensures i <= v <= |s|
    decreases |s| - i
  {
    if CharLen(s, i) == 0 then i else ValidUpTo(s, i + CharLen(s, i))
  }

  // ---- extending a byte string ----

  lemma CharLenExtends(s: Bytes, more: Bytes, i: nat)
    requires i <= |s|
    ensures CharLen(s, i) > 0 ==> CharLen(s + more, i) == CharLen(s, i)
    ensures CharLen(s + more, i) > 0 && i + CharLen(s + more, i) <= |s| ==> CharLen(s, i) == CharLen(s + more, i)
  {
    var t := s + more;
    assert i < |s| ==> t[i] == s[i];
    assert i + 1 < |s| ==> t[i + 1] == s[i + 1];
    assert i + 2 < |s| ==> t[i + 2] == s[i + 2];
    assert i + 3 < |s| ==> t[i + 3] == s[i + 3];
  }

  lemma {:induction false} ValidUpToExtends(s: Bytes, more: Bytes, i: nat)
    requires i <= |s|
    ensures ValidUpTo(s + more, i) == ValidUpTo(s + more, ValidUpTo(s, i))
    decreases |s| - i
  {
    CharLenExtends(s, more, i);
    if CharLen(s, i) > 0 {
      ValidUpToExtends(s, more, i + CharLen(s, i));
    }
  }

  lemma {:induction false} ValidUpToShifts(s: Bytes, i: nat, j: nat)
    requires i + j <= |s|
    ensures ValidUpTo(s, i + j) == i + ValidUpTo(s[i..], j)
    decreases |s| - i - j
  {
    var t := s[i..];
    assert CharLen(t, j) == CharLen(s, i + j);
    if CharLen(t, j) > 0 {
      ValidUpToShifts(s, i, j + CharLen(t, j));
    }
  }

  function Consumed(s: Bytes): (v: nat)
    ensures v <= |s|
  {
    ValidUpTo(s, 0)
  }

  /** Feeding the unconsumed rest together with more bytes consumes what feeding everything at once does. */
  lemma ConsumedInTwoSteps(s: Bytes, more: Bytes)
    ensures Consumed(s + more) == Consumed(s) + Consumed(s[Consumed(s)..] + more)
  {
    ValidUpToExtends(s, more, 0);
    ValidUpToShifts(s + more, Consumed(s), 0);
    assert (s + more)[Consumed(s)..] == s[Consumed(s)..] + more;
  }

  /** If bytes with a short rest are cut anywhere, the cut leaves a short rest too. */
  lemma ShortRestOfPrefix(s: Bytes, more: Bytes)
    requires |s + more| - Consumed(s + more) <= 3
    ensures |s| - Consumed(s) <= 3
  {
    ConsumedInTwoSteps(s, more);
    var rest := s[Consumed(s)..];
    if Consumed(rest + more) > 0 {
      CharLenExtends(rest, more, 0);
      NothingMore(s);
    }
  }

  lemma NothingMore(s: Bytes)
    ensures CharLen(s[Consumed(s)..], 0) == 0
  {
    ValidUpToShifts(s, Consumed(s), 0);
    ConsumedTwice(s, 0);
  }

  lemma {:induction false} ConsumedTwice(s: Bytes, i: nat)
    requires i <= |s|
    ensures CharLen(s, ValidUpTo(s, i)) == 0
    decreases |s| - i
  {
    if CharLen(s, i) > 0 {
      ConsumedTwice(s, i + CharLen(s, i));
    }
  }

  // ---- valid_up_to is the longest valid prefix ----

  lemma {:induction false} PrefixValid(s: Bytes, i: nat)
    requires i <= |s|
    ensures ValidFrom(s[..ValidUpTo(s, i)], i)
    decreases |s| - i
  {
    var v := ValidUpTo(s, i);
    if CharLen(s, i) > 0 {
      PrefixValid(s, i + CharLen(s, i));
      assert s[..v] + s[v..] == s;
      CharLenExtends(s[..v], s[v..], i);
    }
  }

  lemma {:induction false} ValidMeansConsumed(s: Bytes, i: nat)
    requires i <= |s|
    ensures ValidFrom(s, i) <==> ValidUpTo(s, i) == |s|
    decreases |s| - i
  {
    if CharLen(s, i) > 0 {
      ValidMeansConsumed(s, i + CharLen(s, i));
    }
  }

  /** The consumed prefix is valid, and no longer prefix is. */
  lemma ConsumedIsLongestValidPrefix(s: Bytes, k: nat)
    requires k <= |s|
    ensures Valid(s[..Consumed(s)])
    ensures Valid(s[..k]) ==> k <= Consumed(s)
  {
    PrefixValid(s, 0);
    ValidMeansConsumed(s[..k], 0);
    assert s[..k] + s[k..] == s;
    ConsumedInTwoSteps(s[..k], s[k..]);
  }

  // ---- the broadcast loop ----

  const REPLACEMENT: Bytes := [0xEF, 0xBF, 0xBD]
  const MAX_TAIL: nat := 3

  /** What has been broadcast, and the bytes still waiting to become a character. */
  datatype Output = Output(broadcasts: seq<Bytes>, tail: Bytes, replaced: nat)

  function Feed(o: Output, batch: Bytes): Output {
    var buffer := o.tail + batch;
    var v := Consumed(buffer);
    if v == |buffer| then Output(o.broadcasts + [buffer], [], o.replaced)
    else
      var broadcasts := o.broadcasts + if v > 0 then [buffer[..v]] else [];
      if |buffer| - v > MAX_TAIL then Output(broadcasts + [REPLACEMENT], [], o.replaced + 1)
      else Output(broadcasts, buffer[v..], o.replaced)
  }

  function FeedAll(batches: seq<Bytes>): Output {
    if batches == [] then Output([], [], 0)
    else Feed(FeedAll(batches[..|batches| - 1]), batches[|batches| - 1])
  }

  function Concat(parts: seq<Bytes>): Bytes {
    if parts == [] then [] else Concat(parts[..|parts| - 1]) + parts[|parts| - 1]
  }

  lemma ConcatSnoc(parts: seq<Bytes>, last: Bytes)
    ensures Concat(parts + [last]) == Concat(parts) + last
  {
    assert (parts + [last])[..|parts|] == parts;
  }

  /** The loop of `broadcast_task`. A batch is what one `recv` and the `try_recv`s after it returned. */
  method BroadcastTask(batches: seq<Bytes>) returns (broadcasts: seq<Bytes>, tail: Bytes)
    ensures broadcasts == FeedAll(batches).broadcasts && tail == FeedAll(batches).tail
    ensures forall i :: 0 <= i < |broadcasts| ==> Valid(broadcasts[i])
    ensures |tail| <= MAX_TAIL
  {
    broadcasts, tail := [], [];
    for i := 0 to |batches|
      invariant broadcasts == FeedAll(batches[..i]).broadcasts && tail == FeedAll(batches[..i]).tail
    {
      assert batches[..i + 1][..i] == batches[..i];
      tail := tail + batches[i];
      var validUpTo := Consumed(tail);
      if validUpTo == |tail| {
        broadcasts := broadcasts + [tail];
        tail := [];
        continue;
      }
      if validUpTo > 0 {
        broadcasts := broadcasts + [tail[..validUpTo]];
      }
      tail := tail[validUpTo..];
      if |tail| > MAX_TAIL {
        broadcasts := broadcasts + [REPLACEMENT];
        tail := [];
      }
    }
    assert batches[..|batches|] == batches;
    AlwaysValid(batches);
  }

  /** Whatever the input, every broadcast is valid UTF-8 and at most three bytes wait. */
  lemma {:induction false} AlwaysValid(batches: seq<Bytes>)
    ensures forall i :: 0 <= i < |FeedAll(batches).broadcasts| ==> Valid(FeedAll(batches).broadcasts[i])
    ensures |FeedAll(batches).tail| <= MAX_TAIL
    decreases |batches|
  {
    hide Valid, Consumed;
    if batches != [] {
      var o := FeedAll(batches[..|batches| - 1]);
      AlwaysValid(batches[..|batches| - 1]);
      var buffer := o.tail + batches[|batches| - 1];
      ConsumedIsLongestValidPrefix(buffer, |buffer|);
      assert buffer[..|buffer|] == buffer;
      assert Valid(REPLACEMENT) by { ReplacementValid(); }
    }
  }

  lemma ReplacementValid()
    ensures Valid(REPLACEMENT)
  {
  }

  /** The loop has sent exactly the consumed prefix of the stream so far and holds the rest. */
  ghost predicate InStep(o: Output, stream: Bytes) {
    o.replaced == 0 && Concat(o.broadcasts) == stream[..Consumed(stream)] && o.tail == stream[Consumed(stream)..]
  }

  lemma FeedKeepsStep(o: Output, s: Bytes, batch: Bytes)
    requires InStep(o, s) && |s + batch| - Consumed(s + batch) <= MAX_TAIL
    ensures InStep(Feed(o, batch), s + batch)
  {
    hide Consumed;
    ConsumedInTwoSteps(s, batch);
    var buffer := o.tail + batch;
    var c, v := Consumed(s), Consumed(buffer);
    assert (s + batch)[..c + v] == s[..c] + buffer[..v] by { CutSum(s, batch, c, v); }
    assert (s + batch)[c + v..] == buffer[v..] by { CutSum(s, batch, c, v); }
    ConcatSnoc(o.broadcasts, buffer[..v]);
    assert v == |buffer| ==> buffer[..v] == buffer;
    assert v == 0 ==> s[..c] + buffer[..v] == s[..c] && o.broadcasts + [] == o.broadcasts;
  }

  lemma CutSum(s: Bytes, batch: Bytes, c: nat, v: nat)
    requires c <= |s| && v <= |s[c..] + batch|
    ensures c + v <= |s + batch|
    ensures (s + batch)[..c + v] == s[..c] + (s[c..] + batch)[..v]
    ensures (s + batch)[c + v..] == (s[c..] + batch)[v..]
  {
  }

  lemma {:induction false} SentIsConsumed(batches: seq<Bytes>)
    requires |Concat(batches)| - Consumed(Concat(batches)) <= MAX_TAIL
    ensures InStep(FeedAll(batches), Concat(batches))
    decreases |batches|
  {
    hide Consumed, Feed;
    if batches == [] {
      assert FeedAll([]) == Output([], [], 0);
    } else {
      var init, last := batches[..|batches| - 1], batches[|batches| - 1];
      ShortRestOfPrefix(Concat(init), last);
      SentIsConsumed(init);
      FeedKeepsStep(FeedAll(init), Concat(init), last);
    }
  }

  /**
   * Chunking does not matter, and nothing is lost or inserted, exactly when at most three bytes of the
   * stream are left after its longest valid prefix.
   */
  lemma LosslessIffShortRest(stream: Bytes)
    ensures (forall batches :: Concat(batches) == stream ==>
               FeedAll(batches).replaced == 0 && Concat(FeedAll(batches).broadcasts) + FeedAll(batches).tail == stream)
            <==> |stream| - Consumed(stream) <= MAX_TAIL
  {
    if |stream| - Consumed(stream) <= MAX_TAIL {
      forall batches | Concat(batches) == stream
        ensures FeedAll(batches).replaced == 0 && Concat(FeedAll(batches).broadcasts) + FeedAll(batches).tail == stream
      {
        SentIsConsumed(batches);
      }
    } else {
      OneBatchReplaces(stream);
    }
  }

  lemma OneBatchReplaces(stream: Bytes)
    requires |stream| - Consumed(stream) > MAX_TAIL
    ensures Concat([stream]) == stream && FeedAll([stream]).replaced == 1
  {
    hide Consumed;
    assert [stream][..0] == [];
    assert FeedAll([]) == Output([], [], 0);
    assert [] + stream == stream;
  }

  lemma ValidIsConsumed(s: Bytes)
    requires Valid(s)
    ensures Consumed(s) == |s|
  {
    ValidMeansConsumed(s, 0);
  }

  /** A stream that can still become valid UTF-8 satisfies the condition, however it has been cut so far. */
  lemma PrefixOfValidIsLossless(batches: seq<Bytes>, future: Bytes)
    requires Valid(Concat(batches) + future)
    ensures var o := FeedAll(batches);
            o.replaced == 0 && Concat(o.broadcasts) + o.tail == Concat(batches)
  {
    hide Consumed, FeedAll, CharLen, Concat;
    var stream := Concat(batches);
    assert Consumed(stream + future) == |stream + future| by { ValidIsConsumed(stream + future); }
    ShortRestOfPrefix(stream, future);
    SentIsConsumed(batches);
  }

  /** Two ways to cut one such stream give the same text and leave the same bytes waiting. */
  lemma OutputDependsOnlyOnStream(a: seq<Bytes>, b: seq<Bytes>)
    requires Concat(a) == Concat(b) && |Concat(a)| - Consumed(Concat(a)) <= MAX_TAIL
    ensures Concat(FeedAll(a).broadcasts) == Concat(FeedAll(b).broadcasts)
    ensures FeedAll(a).tail == FeedAll(b).tail
  {
    SentIsConsumed(a);
    SentIsConsumed(b);
  }

  /** A malformed stream whose text depends on where it is cut: a stray byte, then "AAAA". */
  lemma ChunkingCanMatter()
    ensures var stream := [0xFF, 0x41, 0x41, 0x41, 0x41];
            && |stream| - Consumed(stream) > MAX_TAIL
            && Concat([stream]) == Concat([stream[..4], stream[4..]]) == stream
            && Concat(FeedAll([stream]).broadcasts) == REPLACEMENT
            && Concat(FeedAll([stream[..4], stream[4..]]).broadcasts) == REPLACEMENT + [0x41]
  {
    var stream := [0xFF, 0x41, 0x41, 0x41, 0x41];
    var a, b := stream[..4], stream[4..];
    assert a + b == stream && b == [0x41];
    Fed(stream);
    Fed(a);
    assert [a, b][..1] == [a];
    assert Consumed(b) == 1;
    var o := Feed(Output([REPLACEMENT], [], 1), b);
    assert [] + b == b;
    assert o == Output([REPLACEMENT, b], [], 1);
    assert [REPLACEMENT, b] == [REPLACEMENT] + [b];
    ConcatSnoc([REPLACEMENT], b);
    ConcatSnoc([a], b);
    ConcatOne(a);
    ConcatOne(stream);
    ConcatOne(REPLACEMENT);
    assert [a] + [b] == [a, b];
  }

  /** One batch that does not even begin with a character, and is too long to wait. */
  lemma Fed(batch: Bytes)
    requires |batch| > MAX_TAIL && CharLen(batch, 0) == 0
    ensures Consumed(batch) == 0 && FeedAll([batch]) == Output([REPLACEMENT], [], 1)
  {
    assert [batch][..0] == [];
    assert FeedAll([]) == Output([], [], 0);
    assert [] + batch == batch;
    assert Feed(Output([], [], 0), batch) == Output([REPLACEMENT], [], 1);
  }

  lemma ConcatOne(part: Bytes)
    ensures Concat([part]) == part
  {
    assert [part][..0] == [];
    assert [] + part == part;
  }

  // ---- one batch ----

  /**
   * Each batch sends the longest valid prefix of what is waiting, all of it, and then at most one
   * replacement character, exactly if more than three bytes would be left. Otherwise those wait.
   */
  lemma NothingValidLost(o: Output, batch: Bytes)
    ensures var buffer := o.tail + batch; var v := Consumed(buffer); var after := Feed(o, batch);
            && Concat(after.broadcasts) ==
               Concat(o.broadcasts) + buffer[..v] + (if |buffer| - v > MAX_TAIL then REPLACEMENT else [])
            && after.tail == (if |buffer| - v > MAX_TAIL then [] else buffer[v..])
  {
    hide Consumed, Concat;
    var buffer := o.tail + batch;
    var v := Consumed(buffer);
    var sent := o.broadcasts + if v > 0 then [buffer[..v]] else [];
    ConcatSnoc(o.broadcasts, buffer[..v]);
    ConcatSnoc(sent, REPLACEMENT);
    assert v == |buffer| ==> buffer[..v] == buffer && buffer[v..] == [];
    assert Concat(o.broadcasts) + [] == Concat(o.broadcasts);
    assert o.broadcasts + [] == o.broadcasts;
    assert Concat(o.broadcasts) + buffer[..v] + [] == Concat(o.broadcasts) + buffer[..v];
  }

  // ---- valid UTF-8 is encoded scalar values ----

  /** Section 3 of RFC 3629: everything up to 10FFFF but the surrogates. */
  predicate IsScalar(c: nat) {
    c < 0xD800 || 0xE000 <= c <= 0x10FFFF
  }

  function Encoded(c: nat): Bytes
    requires IsScalar(c)
  {
    if c < 0x80 then [c]
    else if c < 0x800 then [0xC0 + c / 64, 0x80 + c % 64]
    else if c < 0x10000 then [0xE0 + c / 4096, 0x80 + c / 64 % 64, 0x80 + c % 64]
    else [0xF0 + c / 262144, 0x80 + c / 4096 % 64, 0x80 + c / 64 % 64, 0x80 + c % 64]
  }

  ghost predicate AllScalars(cs: seq<nat>) {
    forall i :: 0 <= i < |cs| ==> IsScalar(cs[i])
  }

  function EncodedAll(cs: seq<nat>): Bytes
    requires AllScalars(cs)
  {
    if cs == [] then [] else Encoded(cs[0]) + EncodedAll(cs[1..])
  }

  lemma EncodedIsCharacter(c: nat, rest: Bytes)
    requires IsScalar(c)
    ensures CharLen(Encoded(c) + rest, 0) == |Encoded(c)|
  {
    hide Encoded, CharLen;
    WellFormed(c);
    assert Encoded(c) + [] == Encoded(c);
    CharLenExtends(Encoded(c), rest, 0);
  }

  lemma WellFormed(c: nat)
    requires IsScalar(c)
    ensures CharLen(Encoded(c), 0) == |Encoded(c)| > 0
  {
    if 0x800 <= c < 0x10000 {
      WellFormedThree(c);
    } else if 0x10000 <= c {
      WellFormedFour(c);
    }
  }

  lemma WellFormedThree(c: nat)
    requires IsScalar(c) && 0x800 <= c < 0x10000
    ensures CharLen(Encoded(c), 0) == |Encoded(c)| > 0
  {
    var a, b := c / 4096, c / 64 % 64;
    assert c / 64 == 64 * a + b;
    assert Announced(0xE0 + a) == 3 && Second(0xE0 + a, 0x80 + b);
  }

  lemma WellFormedFour(c: nat)
    requires IsScalar(c) && 0x10000 <= c
    ensures CharLen(Encoded(c), 0) == |Encoded(c)| > 0
  {
    var a, b := c / 262144, c / 4096 % 64;
    assert c / 4096 == 64 * a + b;
    assert Announced(0xF0 + a) == 4 && Second(0xF0 + a, 0x80 + b);
  }

  lemma TwoBytes(a: Byte, b: Byte)
    requires Announced(a) == 2 && Second(a, b)
    ensures exists c: nat :: IsScalar(c) && Encoded(c) == [a, b]
  {
    var x: int, y: int := a, b;
    var c: int := (x - 0xC0) * 64 + (y - 0x80);
    assert c / 64 == x - 0xC0 && c % 64 == y - 0x80;
    assert IsScalar(c) && Encoded(c) == [a, b];
  }

  lemma ThreeBytes(a: Byte, b: Byte, d: Byte)
    requires Announced(a) == 3 && Second(a, b) && Continues(d)
    ensures exists c: nat :: IsScalar(c) && Encoded(c) == [a, b, d]
  {
    var x: int, y: int, z: int := a, b, d;
    var c: int := (x - 0xE0) * 4096 + (y - 0x80) * 64 + (z - 0x80);
    FourByteDigits(0, x - 0xE0, y - 0x80, z - 0x80);
    assert IsScalar(c) && Encoded(c) == [a, b, d];
  }

  lemma FourBytes(a: Byte, b: Byte, d: Byte, e: Byte)
    requires Announced(a) == 4 && Second(a, b) && Continues(d) && Continues(e)
    ensures exists c: nat :: IsScalar(c) && Encoded(c) == [a, b, d, e]
  {
    var x: int, y: int, z: int, w: int := a, b, d, e;
    var c: int := (x - 0xF0) * 262144 + (y - 0x80) * 4096 + (z - 0x80) * 64 + (w - 0x80);
    FourByteDigits(x - 0xF0, y - 0x80, z - 0x80, w - 0x80);
    assert IsScalar(c) && Encoded(c) == [a, b, d, e];
  }

  /** Every well-formed character is the encoding of a scalar value. */
  lemma CharacterIsEncoded(s: Bytes)
    requires CharLen(s, 0) > 0
    ensures exists c: nat :: IsScalar(c) && Encoded(c) == s[..CharLen(s, 0)]
  {
    hide IsScalar, Encoded;
    var n := CharLen(s, 0);
    assert n == Announced(s[0]);
    if n == 1 {
      assert s[..1] == [s[0]];
      assert IsScalar(s[0]) && Encoded(s[0]) == [s[0]] by { OneByte(s[0]); }
    } else if n == 2 {
      assert s[..2] == [s[0], s[1]];
      TwoBytes(s[0], s[1]);
    } else if n == 3 {
      assert s[..3] == [s[0], s[1], s[2]];
      ThreeBytes(s[0], s[1], s[2]);
    } else {
      assert s[..4] == [s[0], s[1], s[2], s[3]];
      FourBytes(s[0], s[1], s[2], s[3]);
    }
  }

  lemma OneByte(a: Byte)
    requires Announced(a) == 1
    ensures IsScalar(a) && Encoded(a) == [a]
  {
  }

  lemma FourByteDigits(a: nat, b: nat, c: nat, d: nat)
    requires b < 64 && c < 64 && d < 64
    ensures var n := a * 262144 + b * 4096 + c * 64 + d;
            n / 262144 == a && n / 4096 % 64 == b && n / 64 % 64 == c && n % 64 == d
  {
    var n := a * 262144 + b * 4096 + c * 64 + d;
    assert n / 64 == a * 4096 + b * 64 + c;
    assert n / 4096 == a * 64 + b;
  }

  lemma {:induction false} EncodedIsValid(cs: seq<nat>)
    requires AllScalars(cs)
    ensures Valid(EncodedAll(cs))
  {
    if cs != [] {
      EncodedIsValid(cs[1..]);
      var first, rest := Encoded(cs[0]), EncodedAll(cs[1..]);
      EncodedIsCharacter(cs[0], rest);
      ValidShifts(first + rest, |first|);
      assert (first + rest)[|first|..] == rest;
    }
  }

  lemma ValidShifts(s: Bytes, i: nat)
    requires i <= |s|
    ensures ValidFrom(s, i) <==> Valid(s[i..])
  {
    ValidMeansConsumed(s, i);
    ValidMeansConsumed(s[i..], 0);
    ValidUpToShifts(s, i, 0);
  }

  lemma {:induction false} ValidIsEncoded(s: Bytes)
    requires Valid(s)
    ensures exists cs :: AllScalars(cs) && EncodedAll(cs) == s
    decreases |s|
  {
    hide CharLen, Encoded, IsScalar;
    if s == [] {
      assert AllScalars([]) && EncodedAll([]) == s;
    } else {
      var n := CharLen(s, 0);
      ValidShifts(s, n);
      ValidIsEncoded(s[n..]);
      var rest :| AllScalars(rest) && EncodedAll(rest) == s[n..];
      CharacterIsEncoded(s);
      var c: nat :| IsScalar(c) && Encoded(c) == s[..n];
      var cs := [c] + rest;
      assert cs[1..] == rest;
      assert s == s[..n] + s[n..];
      assert AllScalars(cs) && EncodedAll(cs) == s;
    }
  }

  /** Valid means: the encoding of some scalar values. */
  lemma ValidIff(s: Bytes)
    ensures Valid(s) <==> exists cs :: AllScalars(cs) && EncodedAll(cs) == s
  {
    if Valid(s) {
      ValidIsEncoded(s);
    } else if cs :| AllScalars(cs) && EncodedAll(cs) == s {
      EncodedIsValid(cs);
    }
  }
}
