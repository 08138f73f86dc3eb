/** `strip_ansi` of `src/agent.rs`: a scanner with lookahead, shown equal to a five-state automaton. */
module StripAnsi {

  const ESC: char := '\U{1B}'
  const BEL: char := '\U{07}'

  datatype Mode = Ground | Escape | Csi | Osc | OscEscape

  predicate IsAsciiAlphabetic(c: char) {
    'a' <= c <= 'z' || 'A' <= c <= 'Z'
  }

  function Next(mode: Mode, c: char): Mode {
    match mode
    case Ground => if c == ESC then Escape else Ground
    case Escape => if c == ESC then Escape else if c == '[' then Csi else if c == ']' then Osc else Ground
    case Csi => if IsAsciiAlphabetic(c) then Ground else Csi
    case Osc => if c == BEL then Ground else if c == ESC then OscEscape else Osc
    case OscEscape => if c == BEL || c == '\\' then Ground else if c == ESC then OscEscape else Osc
  }

  predicate Emits(mode: Mode, c: char) {
    c != ESC && (mode == Ground || (mode == Escape && c != '[' && c != ']'))
  }

  function ModeAfter(mode: Mode, s: string): Mode
    decreases s
  {
    if s == [] then mode else ModeAfter(Next(mode, s[0]), s[1..])
  }

  function StripFrom(mode: Mode, s: string): string
    decreases s
  {
    if s == [] then [] else (if Emits(mode, s[0]) then [s[0]] else []) + StripFrom(Next(mode, s[0]), s[1..])
  }

  function Strip(s: string): string {
    StripFrom(Ground, s)
  }

  // ---- the scanner of the source ----

  /** `pos` is the position of the source's iterator; looking at `s[pos]` is its `peek`. */
  method StripAnsi(s: string) returns (out: string)
    ensures out == Strip(s)
  {
    hide StripFrom;
    out := [];
    var pos := 0;
    ghost var mode := Ground;
    while pos < |s|
      invariant pos <= |s|
      invariant mode == Ground || (mode == Escape && (pos < |s| ==> s[pos] != '[' && s[pos] != ']'))
      invariant out + StripFrom(mode, s[pos..]) == Strip(s)
      decreases |s| - pos
    {
      var c := s[pos];
      Unroll(mode, s, pos);
      mode := Next(mode, c);
      pos := pos + 1;
      if c == ESC {
        if pos < |s| && s[pos] == '[' {
          Unroll(mode, s, pos);
          pos := SkipCsi(s, pos + 1);
          mode := Ground;
        } else if pos < |s| && s[pos] == ']' {
          Unroll(mode, s, pos);
          pos := SkipOsc(s, pos + 1);
          mode := Ground;
        }
      } else {
        assert out + ([c] + StripFrom(mode, s[pos..])) == out + [c] + StripFrom(mode, s[pos..]);
        out := out + [c];
      }
    }
    StripNothing(mode, s[pos..]);
  }

  lemma StripNothing(mode: Mode, s: string)
    requires s == []
    ensures StripFrom(mode, s) == []
  {
  }

  method SkipCsi(s: string, start: nat) returns (pos: nat)
    requires start <= |s|
    ensures start <= pos <= |s| && StripFrom(Csi, s[start..]) == StripFrom(Ground, s[pos..])
  {
    pos := start;
    while pos < |s|
      invariant start <= pos <= |s|
      invariant StripFrom(Csi, s[start..]) == StripFrom(Csi, s[pos..])
    {
      var nc := s[pos];
      Unroll(Csi, s, pos);
      pos := pos + 1;
      if IsAsciiAlphabetic(nc) || nc == 'm' {
        return;
      }
    }
  }

  method SkipOsc(s: string, start: nat) returns (pos: nat)
    requires start <= |s|
    ensures start <= pos <= |s| && StripFrom(Osc, s[start..]) == StripFrom(Ground, s[pos..])
  {
    pos := start;
    ghost var mode := Osc;
    while pos < |s|
      invariant start <= pos <= |s|
      invariant mode == Osc || (mode == OscEscape && (pos < |s| ==> s[pos] != '\\'))
      invariant StripFrom(Osc, s[start..]) == StripFrom(mode, s[pos..])
    {
      var nc := s[pos];
      Unroll(mode, s, pos);
      mode := Next(mode, nc);
      pos := pos + 1;
      if nc == BEL {
        return;
      }
      if nc == ESC && pos < |s| && s[pos] == '\\' {
        Unroll(mode, s, pos);
        pos := pos + 1;
        return;
      }
    }
  }

  lemma Unroll(mode: Mode, s: string, pos: nat)
    requires pos < |s|
    ensures !Emits(mode, s[pos]) ==> StripFrom(mode, s[pos..]) == StripFrom(Next(mode, s[pos]), s[pos + 1..])
    ensures Emits(mode, s[pos]) ==> StripFrom(mode, s[pos..]) == [s[pos]] + StripFrom(Next(mode, s[pos]), s[pos + 1..])
  {
    assert s[pos..][1..] == s[pos + 1..];
  }

  // ---- what stripping means ----

  /** `a` is what is left of `b` after deleting some characters. */
  predicate Subsequence(a: string, b: string) {
    a == [] || (b != [] && (Subsequence(a, b[1..]) || (a[0] == b[0] && Subsequence(a[1..], b[1..]))))
  }

  lemma {:induction false} OutputIsCleanSubsequence(mode: Mode, s: string)
    ensures ESC !in StripFrom(mode, s)
    ensures Subsequence(StripFrom(mode, s), s)
    decreases s
  {
    if s != [] {
      OutputIsCleanSubsequence(Next(mode, s[0]), s[1..]);
      var rest := StripFrom(Next(mode, s[0]), s[1..]);
      if Emits(mode, s[0]) {
        assert StripFrom(mode, s)[1..] == rest;
      } else {
        assert StripFrom(mode, s) == rest;
      }
    }
  }

  lemma {:induction false} IdentityOnPlainText(s: string)
    requires ESC !in s
    ensures Strip(s) == s && ModeAfter(Ground, s) == Ground
  {
    if s != [] {
      IdentityOnPlainText(s[1..]);
    }
  }

  lemma Idempotent(s: string)
    ensures Strip(Strip(s)) == Strip(s)
  {
    OutputIsCleanSubsequence(Ground, s);
    IdentityOnPlainText(Strip(s));
  }

  lemma StripHead(mode: Mode, s: string)
    requires s != []
    ensures StripFrom(mode, s) == (if Emits(mode, s[0]) then [s[0]] else []) + StripFrom(Next(mode, s[0]), s[1..])
  {
  }

  lemma {:induction false} StripConcat(mode: Mode, a: string, b: string)
    ensures StripFrom(mode, a + b) == StripFrom(mode, a) + StripFrom(ModeAfter(mode, a), b)
    decreases a
  {
    hide StripFrom, Next, Emits;
    if a == [] {
      assert a + b == b;
      StripNothing(mode, a);
    } else {
      assert (a + b)[1..] == a[1..] + b;
      StripConcat(Next(mode, a[0]), a[1..], b);
      var head := if Emits(mode, a[0]) then [a[0]] else [];
      StripHead(mode, a);
      StripHead(mode, a + b);
      assert head + (StripFrom(Next(mode, a[0]), a[1..]) + StripFrom(ModeAfter(mode, a), b))
          == head + StripFrom(Next(mode, a[0]), a[1..]) + StripFrom(ModeAfter(mode, a), b);
    }
  }

  /** A text that shows in which state the automaton was. */
  function Probe(mode: Mode): string {
    if mode == Escape then "[" else "x"
  }

  lemma ProbeTells(mode: Mode)
    ensures mode != Ground ==> StripFrom(mode, Probe(mode)) != Strip(Probe(mode))
  {
    assert StripFrom(mode, "x") == (if Emits(mode, 'x') then "x" else "");
    assert StripFrom(mode, "[") == (if Emits(mode, '[') then "[" else "");
    assert Strip("x") == "x" && Strip("[") == "[";
  }

  /** Text can be stripped piece by piece exactly when the first piece does not end inside an escape sequence. */
  lemma PiecewiseIffOutside(a: string)
    ensures (forall b :: Strip(a + b) == Strip(a) + Strip(b)) <==> ModeAfter(Ground, a) == Ground
  {
    var mode := ModeAfter(Ground, a);
    if mode == Ground {
      forall b
        ensures Strip(a + b) == Strip(a) + Strip(b)
      {
        StripConcat(Ground, a, b);
      }
    } else {
      StripConcat(Ground, a, Probe(mode));
      ProbeTells(mode);
      assert Strip(a + Probe(mode)) != Strip(a) + Strip(Probe(mode));
    }
  }

  /** A text that must not be cut: an escape character, then the rest of its sequence. */
  lemma CutInsideSequence()
    ensures Strip([ESC] + "[31m") == "" && Strip([ESC]) + Strip("[31m") == "[31m"
  {
    hide StripFrom;
    var s := [ESC] + "[31m";
    IdentityOnPlainText("[31m");
    assert s == [ESC, '[', '3', '1', 'm'];
    Unroll(Ground, s, 0);
    Unroll(Escape, s, 1);
    Unroll(Csi, s, 2);
    Unroll(Csi, s, 3);
    Unroll(Csi, s, 4);
    assert s[0..] == s;
    StripNothing(Ground, s[5..]);
    Unroll(Ground, [ESC], 0);
    assert [ESC][0..] == [ESC];
    StripNothing(Escape, [ESC][1..]);
  }

  // ---- what counts as an escape sequence ----

  /** A character outside any sequence stays. */
  lemma PlainStays(c: char, rest: string)
    requires c != ESC
    ensures Strip([c] + rest) == [c] + Strip(rest)
  {
    assert ([c] + rest)[1..] == rest;
  }

  /** An escape character that begins no sequence is dropped alone. */
  lemma LoneEscape(rest: string)
    requires rest != [] && rest[0] != '[' && rest[0] != ']'
    ensures Strip([ESC] + rest) == Strip(rest)
  {
    hide StripFrom;
    assert ([ESC] + rest)[1..] == rest;
    StripHead(Ground, [ESC] + rest);
    StripHead(Escape, rest);
    StripHead(Ground, rest);
  }

  lemma {:induction false} InsideCsi(body: string, rest: string)
    requires forall i :: 0 <= i < |body| ==> !IsAsciiAlphabetic(body[i])
    ensures StripFrom(Csi, body + rest) == StripFrom(Csi, rest)
    decreases body
  {
    if body == [] {
      assert body + rest == rest;
    } else {
      assert (body + rest)[1..] == body[1..] + rest;
      InsideCsi(body[1..], rest);
    }
  }

  /** A control sequence goes up to and including its first letter, or up to the end. */
  lemma ControlSequence(body: string, final: char, rest: string)
    requires forall i :: 0 <= i < |body| ==> !IsAsciiAlphabetic(body[i])
    requires 'a' <= final <= 'z' || 'A' <= final <= 'Z'
    ensures Strip([ESC, '['] + body + [final] + rest) == Strip(rest)
    ensures Strip([ESC, '['] + body) == ""
  {
    Enter('[', body + ([final] + rest));
    Enter('[', body + []);
    assert [ESC, '['] + body + [final] + rest == [ESC, '['] + (body + ([final] + rest));
    assert [ESC, '['] + body == [ESC, '['] + (body + []);
    InsideCsi(body, [final] + rest);
    InsideCsi(body, []);
    assert ([final] + rest)[1..] == rest;
  }

  /** What follows the two characters that begin a sequence. */
  lemma Enter(kind: char, rest: string)
    requires kind == '[' || kind == ']'
    ensures Strip([ESC, kind] + rest) == StripFrom(if kind == '[' then Csi else Osc, rest)
  {
    hide StripFrom;
    var s := [ESC, kind] + rest;
    assert s[1..] == [kind] + rest && ([kind] + rest)[1..] == rest;
    StripHead(Ground, s);
    StripHead(Escape, [kind] + rest);
  }

  /** No BEL, and no escape character with a backslash after it. */
  predicate NoTerminator(body: string) {
    && (forall i :: 0 <= i < |body| ==> body[i] != BEL)
    && (forall i :: 0 <= i < |body| - 1 && body[i] == ESC ==> body[i + 1] != '\\')
  }

  lemma {:induction false} InsideOsc(mode: Mode, body: string, end: string)
    requires mode == Osc || (mode == OscEscape && (body != [] ==> body[0] != '\\'))
    requires NoTerminator(body)
    ensures exists m :: (m == Osc || m == OscEscape) && StripFrom(mode, body + end) == StripFrom(m, end)
                        && (m == OscEscape ==> if body == [] then mode == OscEscape else body[|body| - 1] == ESC)
    decreases body
  {
    if body == [] {
      assert body + end == end;
    } else {
      assert (body + end)[1..] == body[1..] + end;
      InsideOsc(Next(mode, body[0]), body[1..], end);
    }
  }

  /** An operating system command goes up to and including BEL, or ESC and backslash, or up to the end. */
  lemma OperatingSystemCommand(body: string, rest: string)
    requires NoTerminator(body)
    ensures Strip([ESC, ']'] + body + [BEL] + rest) == Strip(rest)
    ensures Strip([ESC, ']'] + body + [ESC, '\\'] + rest) == Strip(rest)
    ensures Strip([ESC, ']'] + body) == ""
  {
    OscEnds(body, [BEL], rest);
    OscEnds(body, [ESC, '\\'], rest);
    Enter(']', body + []);
    assert [ESC, ']'] + body == [ESC, ']'] + (body + []);
    InsideOsc(Osc, body, []);
  }

  lemma OscEnds(body: string, end: string, rest: string)
    requires NoTerminator(body) && (end == [BEL] || end == [ESC, '\\'])
    ensures Strip([ESC, ']'] + body + end + rest) == Strip(rest)
  {
    Enter(']', body + (end + rest));
    assert [ESC, ']'] + body + end + rest == [ESC, ']'] + (body + (end + rest));
    InsideOsc(Osc, body, end + rest);
    assert (end + rest)[1..] == end[1..] + rest;
    assert |end| == 2 ==> (end[1..] + rest)[1..] == rest;
    assert |end| == 1 ==> end[1..] + rest == rest;
  }
}
