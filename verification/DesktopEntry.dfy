/**
 * The freedesktop autostart entry of `src-tauri/src/autostart.rs`: the `Exec` value goes through two layers
 * of escaping, quoting (section "The Exec key" of the Desktop Entry Specification) inside string escaping
 * (section "Possible value types").
 */
module DesktopEntry {
  import opened Common

  const BACKGROUND_ARG := "--background"
  const SUFFIX := "\" " + BACKGROUND_ARG
  const NUL: char := '\U{0}'

  /** Absolute paths without NUL, CR or LF. */
  predicate ValidTextPath(path: string) {
    path != [] && path[0] == '/' && NUL !in path && '\n' !in path && '\r' !in path
  }

  predicate NeedsBackslash(c: char) {
    c == '"' || c == '\\' || c == '`' || c == '$'
  }

  function QuoteChar(c: char): string {
    if NeedsBackslash(c) then ['\\', c] else if c == '%' then "%%" else [c]
  }

  function Quote(path: string): string {
    if path == [] then [] else QuoteChar(path[0]) + Quote(path[1..])
  }

  function EscapeChar(c: char): string {
    if c == '\\' then "\\\\" else [c]
  }

  function Escape(s: string): string {
    if s == [] then [] else EscapeChar(s[0]) + Escape(s[1..])
  }

  function EncodeExec(path: string): Result<string, string> {
    if !ValidTextPath(path) then Failure("executable path cannot be represented in a desktop entry")
    else Success(Escape("\"" + Quote(path) + SUFFIX))
  }

  function Prepend(s: string, r: Result<string, string>): Result<string, string> {
    match r
    case Success(rest) => Success(s + rest)
    case Failure(e) => Failure(e)
  }

  /** What a backslash and `c` stand for in a string value. */
  function Unescaped(c: char): Option<char> {
    if c == '\\' then Some('\\')
    else if c == 's' then Some(' ')
    else if c == 'n' then Some('\n')
    else if c == 't' then Some('\t')
    else if c == 'r' then Some('\r')
    else None
  }

  function DecodeValue(value: string): Result<string, string> {
    if value == [] then Success([])
    else if value[0] != '\\' then Prepend([value[0]], DecodeValue(value[1..]))
    else if |value| < 2 || Unescaped(value[1]).None? then Failure("invalid desktop entry escape")
    else Prepend([Unescaped(value[1]).value], DecodeValue(value[2..]))
  }

  function Unquote(encoded: string): Result<string, string> {
    if encoded == [] then Success([])
    else if encoded[0] == '\\' then
      if |encoded| < 2 || !NeedsBackslash(encoded[1]) then Failure("invalid desktop Exec quoting")
      else Prepend([encoded[1]], Unquote(encoded[2..]))
    else if encoded[0] == '%' then
      if |encoded| < 2 || encoded[1] != '%' then Failure("desktop Exec contains a field code")
      else Prepend("%", Unquote(encoded[2..]))
    else Prepend([encoded[0]], Unquote(encoded[1..]))
  }

  /** `Panics` is the slice `[1..len - suffix]` with its end before its start. */
  datatype Decoded = ExecPath(path: string) | Rejected(message: string) | Panics

  predicate EndsWith(s: string, suffix: string) {
    |suffix| <= |s| && s[|s| - |suffix|..] == suffix
  }

  function DecodeExec(exec: string): Decoded {
    match DecodeValue(exec)
    case Failure(e) => Rejected(e)
    case Success(value) =>
      if value == [] || value[0] != '"' || !EndsWith(value, SUFFIX) then
        Rejected("desktop Exec must contain one quoted path and --background")
      else if |value| < 1 + |SUFFIX| then Panics
      else
        match Unquote(value[1..|value| - |SUFFIX|])
        case Failure(e) => Rejected(e)
        case Success(path) => if ValidTextPath(path) then ExecPath(path) else Rejected("desktop Exec path is invalid")
  }

  // ---- the loops of the source ----

  method EncodeDesktopExec(path: string) returns (r: Result<string, string>)
    ensures r == EncodeExec(path)
  {
    if !ValidTextPath(path) {
      return Failure("executable path cannot be represented in a desktop entry");
    }
    var exec := QuoteLoop(path);
    exec := exec + "\" ";
    exec := exec + BACKGROUND_ARG;
    assert exec == "\"" + Quote(path) + SUFFIX;
    var value := EscapeLoop(exec);
    r := Success(value);
  }

  /** The first loop of the encoder: the opening quote and the quoted path. */
  method QuoteLoop(path: string) returns (exec: string)
    ensures exec == "\"" + Quote(path)
  {
    hide QuoteChar;
    exec := "\"";
    assert path[0..] == path;
    for i := 0 to |path|
      invariant exec + Quote(path[i..]) == "\"" + Quote(path)
    {
      assert path[i..][1..] == path[i + 1..];
      assert exec + QuoteChar(path[i]) + Quote(path[i + 1..]) == exec + (QuoteChar(path[i]) + Quote(path[i + 1..]));
      exec := exec + QuoteChar(path[i]);
    }
    assert exec + Quote([]) == exec;
  }

  /** The second loop of the encoder. */
  method EscapeLoop(exec: string) returns (value: string)
    ensures value == Escape(exec)
  {
    hide EscapeChar;
    value := "";
    assert exec[0..] == exec;
    for i := 0 to |exec|
      invariant value + Escape(exec[i..]) == Escape(exec)
    {
      assert exec[i..][1..] == exec[i + 1..];
      assert value + EscapeChar(exec[i]) + Escape(exec[i + 1..])
             == value + (EscapeChar(exec[i]) + Escape(exec[i + 1..]));
      value := value + EscapeChar(exec[i]);
    }
    assert value + Escape([]) == value;
  }

  method DecodeDesktopValue(value: string) returns (r: Result<string, string>)
    ensures r == DecodeValue(value)
  {
    var decoded := "";
    var pos := 0;
    assert value[0..] == value;
    PrependNothing(DecodeValue(value));
    while pos < |value|
      invariant pos <= |value|
      invariant DecodeValue(value) == Prepend(decoded, DecodeValue(value[pos..]))
    {
      var rest := value[pos..];
      assert rest[1..] == value[pos + 1..];
      if rest[0] != '\\' {
        PrependTwice(decoded, [rest[0]], DecodeValue(rest[1..]));
        decoded := decoded + [rest[0]];
        pos := pos + 1;
        continue;
      }
      if pos + 1 == |value| || Unescaped(value[pos + 1]).None? {
        return Failure("invalid desktop entry escape");
      }
      assert rest[2..] == value[pos + 2..];
      PrependTwice(decoded, [Unescaped(rest[1]).value], DecodeValue(rest[2..]));
      decoded := decoded + [Unescaped(value[pos + 1]).value];
      pos := pos + 2;
    }
    assert decoded + [] == decoded;
    r := Success(decoded);
  }

  method UnquoteExec(encoded: string) returns (r: Result<string, string>)
    ensures r == Unquote(encoded)
  {
    var path := "";
    var pos := 0;
    assert encoded[0..] == encoded;
    PrependNothing(Unquote(encoded));
    while pos < |encoded|
      invariant pos <= |encoded|
      invariant Unquote(encoded) == Prepend(path, Unquote(encoded[pos..]))
    {
      var rest := encoded[pos..];
      assert rest[1..] == encoded[pos + 1..];
      if rest[0] == '\\' {
        if pos + 1 == |encoded| || !NeedsBackslash(encoded[pos + 1]) {
          return Failure("invalid desktop Exec quoting");
        }
        assert rest[2..] == encoded[pos + 2..];
        PrependTwice(path, [rest[1]], Unquote(rest[2..]));
        path := path + [encoded[pos + 1]];
        pos := pos + 2;
      } else if rest[0] == '%' {
        if pos + 1 == |encoded| || encoded[pos + 1] != '%' {
          return Failure("desktop Exec contains a field code");
        }
        assert rest[2..] == encoded[pos + 2..];
        PrependTwice(path, "%", Unquote(rest[2..]));
        path := path + "%";
        pos := pos + 2;
      } else {
        PrependTwice(path, [rest[0]], Unquote(rest[1..]));
        path := path + [rest[0]];
        pos := pos + 1;
      }
    }
    assert path + [] == path;
    r := Success(path);
  }

  lemma PrependNothing(r: Result<string, string>)
    ensures Prepend("", r) == r
  {
    if r.Success? {
      assert "" + r.value == r.value;
    }
  }

  lemma PrependTwice(a: string, b: string, r: Result<string, string>)
    ensures Prepend(a, Prepend(b, r)) == Prepend(a + b, r)
  {
    if r.Success? {
      assert a + (b + r.value) == a + b + r.value;
    }
  }

  // ---- round trips ----

  lemma {:induction false} UnquoteQuote(path: string)
    ensures Unquote(Quote(path)) == Success(path)
  {
    if path != [] {
      UnquoteQuote(path[1..]);
      var q := QuoteChar(path[0]);
      assert Quote(path)[|q|..] == Quote(path[1..]);
      assert [path[0]] + path[1..] == path;
    }
  }

  lemma {:induction false} DecodeEscape(s: string)
    ensures DecodeValue(Escape(s)) == Success(s)
  {
    if s != [] {
      DecodeEscape(s[1..]);
      var e := EscapeChar(s[0]);
      assert Escape(s)[|e|..] == Escape(s[1..]);
      assert [s[0]] + s[1..] == s;
    }
  }

  /** Both layers undone: every representable path comes back, and the decoder does not panic on it. */
  lemma ExecRoundTrip(path: string)
    requires ValidTextPath(path)
    ensures EncodeExec(path).Success? && DecodeExec(EncodeExec(path).value) == ExecPath(path)
  {
    hide ValidTextPath;
    var quoted := "\"" + Quote(path) + SUFFIX;
    DecodeEscape(quoted);
    UnquoteQuote(path);
    assert quoted[|quoted| - |SUFFIX|..] == SUFFIX;
    assert quoted[1..|quoted| - |SUFFIX|] == Quote(path);
  }

  lemma EncoderInjective(a: string, b: string)
    requires EncodeExec(a).Success? && EncodeExec(a) == EncodeExec(b)
    ensures a == b
  {
    ExecRoundTrip(a);
    ExecRoundTrip(b);
  }

  /** Whatever the decoder accepts is a path the encoder can represent. */
  lemma DecodedIsEncodable(exec: string)
    requires DecodeExec(exec).ExecPath?
    ensures var path := DecodeExec(exec).path;
            EncodeExec(path).Success? && DecodeExec(EncodeExec(path).value) == DecodeExec(exec)
  {
    ExecRoundTrip(DecodeExec(exec).path);
  }

  /** The decoder panics exactly on values whose opening quote is also the quote of the suffix. */
  lemma PanicsIff(exec: string)
    ensures DecodeExec(exec) == Panics <==> DecodeValue(exec) == Success(SUFFIX)
  {
    match DecodeValue(exec)
    case Failure(_) =>
    case Success(value) =>
      if |value| == |SUFFIX| {
        assert value[|value| - |SUFFIX|..] == value;
      }
  }

  lemma {:induction false} PlainValueStays(s: string)
    requires '\\' !in s
    ensures DecodeValue(s) == Success(s)
  {
    if s != [] {
      PlainValueStays(s[1..]);
      assert [s[0]] + s[1..] == s;
    }
  }

  /** A value that makes it panic: the suffix alone. */
  lemma SuffixPanics()
    ensures DecodeExec("\" --background") == Panics
  {
    assert SUFFIX == "\" --background";
    PlainValueStays(SUFFIX);
    PanicsIff(SUFFIX);
  }

  // ---- the file around it ----

  /** What is found at the registration path. */
  datatype File = Absent | NotText | Text(contents: string)

  datatype Registration = Missing | Malformed | Managed(path: string) | ReadPanics

  /** Lines, each ended by LF. */
  function Joined(lines: seq<string>): string {
    if lines == [] then "" else lines[0] + "\n" + Joined(lines[1..])
  }

  function FieldLines(exec: string): seq<string> {
    ["Type=Application", "Name=Dinotty", "Exec=" + exec, "Terminal=false", "X-Dinotty-Autostart=true"]
  }

  function FileText(exec: string): string {
    Joined(["[Desktop Entry]"] + FieldLines(exec))
  }

  /** Position of the first `c` at or after `from`, or the length. */
  function Find(s: string, c: char, from: nat): (k: nat)
    requires from <= |s|
    ensures from <= k <= |s|
    ensures k < |s| ==> s[k] == c
    ensures forall i :: from <= i < k ==> s[i] != c
    decreases |s| - from
  {
    if from == |s| || s[from] == c then from else Find(s, c, from + 1)
  }

  /** A line ended by LF also loses a CR before it. */
  function WithoutCr(line: string): string {
    if line != [] && line[|line| - 1] == '\r' then line[..|line| - 1] else line
  }

  /** `str::lines`. */
  function Lines(s: string): seq<string>
    decreases |s|
  {
    if s == [] then []
    else
      var k := Find(s, '\n', 0);
      if k == |s| then [s] else [WithoutCr(s[..k])] + Lines(s[k + 1..])
  }

  /** The fields of the remaining lines added to those so far; `None` for a malformed or repeated line. */
  function ParseFields(lines: seq<string>, fields: map<string, string>): Option<map<string, string>>
    decreases |lines|
  {
    if lines == [] then Some(fields)
    else if lines[0] == [] then ParseFields(lines[1..], fields)
    else
      var k := Find(lines[0], '=', 0);
      if k == |lines[0]| || lines[0][..k] in fields then None
      else ParseFields(lines[1..], fields[lines[0][..k] := lines[0][k + 1..]])
  }

  predicate Has(fields: map<string, string>, key: string, value: string) {
    key in fields && fields[key] == value
  }

  function ReadFields(fields: map<string, string>): Registration {
    if |fields| != 5 || !Has(fields, "Type", "Application") || !Has(fields, "Name", "Dinotty")
       || !Has(fields, "Terminal", "false") || !Has(fields, "X-Dinotty-Autostart", "true") || "Exec" !in fields
    then Malformed
    else
      match DecodeExec(fields["Exec"])
      case ExecPath(path) => Managed(path)
      case Rejected(_) => Malformed
      case Panics => ReadPanics
  }

  function ReadDesktopFile(file: File): Registration {
    match file
    case Absent => Missing
    case NotText => Malformed
    case Text(contents) =>
      var lines := Lines(contents);
      if lines == [] || lines[0] != "[Desktop Entry]" then Malformed
      else
        match ParseFields(lines[1..], map[])
        case None => Malformed
        case Some(fields) => ReadFields(fields)
  }

  method ReadDesktopFields(lines: seq<string>) returns (r: Option<map<string, string>>)
    ensures r == ParseFields(lines, map[])
  {
    var fields := map[];
    assert lines[0..] == lines;
    for i := 0 to |lines|
      invariant ParseFields(lines, map[]) == ParseFields(lines[i..], fields)
    {
      var line := lines[i];
      assert lines[i..][1..] == lines[i + 1..];
      if line == [] {
        continue;
      }
      var k := Find(line, '=', 0);
      if k == |line| || line[..k] in fields {
        return None;
      }
      fields := fields[line[..k] := line[k + 1..]];
    }
    r := Some(fields);
  }

  /** The text `enable` writes for a target. */
  function EnableText(path: string): Result<string, string> {
    match EncodeExec(path)
    case Success(exec) => Success(FileText(exec))
    case Failure(e) => Failure(e)
  }

  predicate PlainLine(line: string) {
    '\n' !in line && '\r' !in line
  }

  lemma FirstLine(line: string, rest: string)
    requires PlainLine(line)
    ensures Lines(line + "\n" + rest) == [line] + Lines(rest)
  {
    var s := line + "\n" + rest;
    assert s[|line|] == '\n';
    assert forall i :: 0 <= i < |line| ==> s[i] == line[i] && line[i] in line;
    assert Find(s, '\n', 0) == |line|;
    assert s[..|line|] == line && s[|line| + 1..] == rest;
    assert line != [] ==> line[|line| - 1] in line;
  }

  lemma {:induction false} QuotePlain(path: string)
    requires PlainLine(path)
    ensures PlainLine(Quote(path))
  {
    if path != [] {
      QuotePlain(path[1..]);
    }
  }

  lemma {:induction false} EscapePlain(s: string)
    requires PlainLine(s)
    ensures PlainLine(Escape(s))
  {
    if s != [] {
      EscapePlain(s[1..]);
    }
  }

  lemma ExecPlain(path: string)
    requires ValidTextPath(path)
    ensures PlainLine("Exec=" + EncodeExec(path).value)
  {
    QuotePlain(path);
    EscapePlain("\"" + Quote(path) + SUFFIX);
  }

  lemma {:induction false} LinesOfJoined(lines: seq<string>)
    requires forall i :: 0 <= i < |lines| ==> PlainLine(lines[i])
    ensures Lines(Joined(lines)) == lines
  {
    if lines != [] {
      LinesOfJoined(lines[1..]);
      FirstLine(lines[0], Joined(lines[1..]));
    }
  }

  lemma FieldOf(key: string, value: string)
    requires '=' !in key
    ensures var line := key + "=" + value; var k := Find(line, '=', 0);
            k == |key| && line[..k] == key && line[k + 1..] == value
  {
    var line := key + "=" + value;
    assert line[|key|] == '=';
    assert forall i :: 0 <= i < |key| ==> line[i] == key[i] && key[i] in key;
  }

  /** One more `key=value` line with a new key adds one field. */
  lemma NextField(lines: seq<string>, fields: map<string, string>, key: string, value: string)
    requires lines != [] && lines[0] == key + "=" + value && '=' !in key && key !in fields
    ensures ParseFields(lines, fields) == ParseFields(lines[1..], fields[key := value])
  {
    FieldOf(key, value);
  }

  function FieldMap(exec: string): map<string, string> {
    map["Type" := "Application", "Name" := "Dinotty", "Exec" := exec, "Terminal" := "false",
        "X-Dinotty-Autostart" := "true"]
  }

  lemma FieldMapReads(exec: string)
    ensures ReadFields(FieldMap(exec)) ==
            match DecodeExec(exec)
            case ExecPath(path) => Managed(path)
            case Rejected(_) => Malformed
            case Panics => ReadPanics
  {
    hide DecodeExec;
    var m := FieldMap(exec);
    assert m.Keys == {"Type", "Name", "Exec", "Terminal", "X-Dinotty-Autostart"};
    assert |m.Keys| == 5;
  }

  lemma AllLinesPlain(exec: string)
    requires PlainLine("Exec=" + exec)
    ensures var lines := ["[Desktop Entry]"] + FieldLines(exec); forall i :: 0 <= i < |lines| ==> PlainLine(lines[i])
  {
  }

  lemma FieldsOfFile(exec: string)
    ensures ParseFields(FieldLines(exec), map[]) ==
            Some(FieldMap(exec))
  {
    hide ParseFields;
    var l := FieldLines(exec);
    assert l[0] == "Type" + "=" + "Application";
    assert l[1] == "Name" + "=" + "Dinotty";
    assert l[2] == "Exec" + "=" + exec;
    assert l[3] == "Terminal" + "=" + "false";
    assert l[4] == "X-Dinotty-Autostart" + "=" + "true";
    var f0: map<string, string> := map[];
    var f1 := f0["Type" := "Application"];
    var f2 := f1["Name" := "Dinotty"];
    var f3 := f2["Exec" := exec];
    var f4 := f3["Terminal" := "false"];
    NextField(l, f0, "Type", "Application");
    NextField(l[1..], f1, "Name", "Dinotty");
    NextField(l[1..][1..], f2, "Exec", exec);
    NextField(l[1..][1..][1..], f3, "Terminal", "false");
    NextField(l[1..][1..][1..][1..], f4, "X-Dinotty-Autostart", "true");
    NoMoreFields(l[1..][1..][1..][1..][1..], f4["X-Dinotty-Autostart" := "true"]);
  }

  lemma NoMoreFields(lines: seq<string>, fields: map<string, string>)
    requires lines == []
    ensures ParseFields(lines, fields) == Some(fields)
  {
  }

  /** The generated file, read back, is the managed registration of the same path. */
  lemma FileRoundTrip(path: string)
    requires ValidTextPath(path)
    ensures EnableText(path).Success? && ReadDesktopFile(Text(EnableText(path).value)) == Managed(path)
  {
    hide Lines, ParseFields, DecodeExec, EncodeExec, FieldLines, FieldMap, ReadFields, PlainLine;
    ExecRoundTrip(path);
    ExecPlain(path);
    var exec := EncodeExec(path).value;
    var lines := ["[Desktop Entry]"] + FieldLines(exec);
    AllLinesPlain(exec);
    LinesOfJoined(lines);
    FieldsOfFile(exec);
    FieldMapReads(exec);
    assert lines[0] == "[Desktop Entry]" && lines[1..] == FieldLines(exec);
  }

  /** A file that is well formed but for its `Exec` value makes the reader panic. */
  lemma FilePanics()
    ensures ReadDesktopFile(Text(FileText(SUFFIX))) == ReadPanics
  {
    hide Lines, ParseFields, DecodeExec, FieldLines, FieldMap, ReadFields, PlainLine;
    SuffixPanics();
    assert SUFFIX == "\" --background";
    var lines := ["[Desktop Entry]"] + FieldLines(SUFFIX);
    assert PlainLine("Exec=" + SUFFIX) by { SuffixPlain(); }
    AllLinesPlain(SUFFIX);
    LinesOfJoined(lines);
    FieldsOfFile(SUFFIX);
    FieldMapReads(SUFFIX);
    assert lines[0] == "[Desktop Entry]" && lines[1..] == FieldLines(SUFFIX);
  }

  lemma SuffixPlain()
    ensures PlainLine("Exec=" + SUFFIX)
  {
  }

  // ---- what the formats allow ----

  /** Exactly the absolute paths without NUL, LF and CR can be written. */
  lemma EncodableIff(path: string)
    ensures EncodeExec(path).Success? <==>
            && path != [] && path[0] == '/'
            && forall i :: 0 <= i < |path| ==> path[i] != '\U{0}' && path[i] != '\n' && path[i] != '\r'
  {
    if EncodeExec(path).Success? {
      forall i | 0 <= i < |path|
        ensures path[i] != '\U{0}' && path[i] != '\n' && path[i] != '\r'
      {
        assert path[i] in path;
      }
    }
  }

  /** No quote, backtick or dollar sign stands bare, and no percent sign begins a field code. */
  predicate WellQuoted(s: string) {
    || s == []
    || (s[0] == '\\' && |s| >= 2 && s[1] in {'"', '`', '$', '\\'} && WellQuoted(s[2..]))
    || (s[0] == '%' && |s| >= 2 && s[1] == '%' && WellQuoted(s[2..]))
    || (s[0] !in {'"', '`', '$', '\\', '%'} && WellQuoted(s[1..]))
  }

  lemma {:induction false} QuotedWell(path: string)
    ensures WellQuoted(Quote(path))
  {
    if path != [] {
      QuotedWell(path[1..]);
      var q := QuoteChar(path[0]);
      assert Quote(path)[|q|..] == Quote(path[1..]);
    }
  }

  /** Backslashes come in pairs. */
  predicate Doubled(s: string) {
    s == [] || (s[0] == '\\' && |s| >= 2 && s[1] == '\\' && Doubled(s[2..])) || (s[0] != '\\' && Doubled(s[1..]))
  }

  lemma {:induction false} EscapedDoubled(s: string)
    ensures Doubled(Escape(s))
  {
    if s != [] {
      EscapedDoubled(s[1..]);
      var e := EscapeChar(s[0]);
      assert Escape(s)[|e|..] == Escape(s[1..]);
    }
  }

  /** What is written: one quoted argument and the flag, with every reserved character escaped, in both layers. */
  lemma ExecIsSafe(path: string)
    requires EncodeExec(path).Success?
    ensures Doubled(EncodeExec(path).value)
    ensures exists quoted ::
            WellQuoted(quoted) && DecodeValue(EncodeExec(path).value) == Success("\"" + quoted + "\" --background")
  {
    hide Quote, Escape, WellQuoted, Doubled, DecodeValue;
    EscapedDoubled("\"" + Quote(path) + SUFFIX);
    DecodeEscape("\"" + Quote(path) + SUFFIX);
    QuotedWell(path);
    assert SUFFIX == "\" --background";
  }

  /** The escapes of a string value, and no others. */
  lemma EscapesMean(c: char)
    ensures DecodeValue(['\\', c]) ==
            if c == 's' then Success(" ")
            else if c == 'n' then Success("\n")
            else if c == 't' then Success("\t")
            else if c == 'r' then Success("\r")
            else if c == '\\' then Success("\\")
            else Failure("invalid desktop entry escape")
    ensures DecodeValue("\\").Failure?
  {
    var s := ['\\', c];
    assert s[2..] == [];
    assert DecodeValue(s[2..]) == Success([]);
    PrependOne(if Unescaped(c).Some? then Unescaped(c).value else c);
  }

  /** The quotings of an argument, and no others. */
  lemma QuotingsMean(c: char)
    ensures Unquote(['\\', c]) ==
            if c in {'"', '`', '$', '\\'} then Success([c]) else Failure("invalid desktop Exec quoting")
    ensures Unquote(['%', c]) == if c == '%' then Success("%") else Failure("desktop Exec contains a field code")
    ensures Unquote("\\").Failure? && Unquote("%").Failure?
  {
    assert ['\\', c][2..] == [] && ['%', c][2..] == [];
    assert Unquote([]) == Success([]);
    PrependOne(c);
    PrependOne('%');
  }

  lemma PrependOne(c: char)
    ensures Prepend([c], Success([])) == Success([c])
  {
    assert [c] + [] == [c];
  }

  /** Exactly the five fields with their values make a managed registration, whatever their order. */
  lemma ManagedIff(fields: map<string, string>, path: string)
    ensures ReadFields(fields) == Managed(path) <==>
            && fields.Keys == {"Type", "Name", "Exec", "Terminal", "X-Dinotty-Autostart"}
            && fields["Type"] == "Application" && fields["Name"] == "Dinotty" && fields["Terminal"] == "false"
            && fields["X-Dinotty-Autostart"] == "true" && DecodeExec(fields["Exec"]) == ExecPath(path)
  {
    hide DecodeExec;
    var keys := {"Type", "Name", "Exec", "Terminal", "X-Dinotty-Autostart"};
    assert |keys| == 5;
    assert |fields.Keys| == |fields|;
    if keys <= fields.Keys && |fields| == 5 {
      SameSize(keys, fields.Keys);
    }
  }

  lemma SameSize(a: set<string>, b: set<string>)
    requires a <= b && |a| == |b|
    ensures a == b
  {
    assert |b - a| == |b| - |a|;
  }

  /** Lines may end with CR and LF as well. */
  lemma FirstLineCr(line: string, rest: string)
    requires PlainLine(line)
    ensures Lines(line + "\r\n" + rest) == [line] + Lines(rest)
  {
    var s := line + "\r\n" + rest;
    assert s[|line| + 1] == '\n';
    assert forall i :: 0 <= i < |line| ==> s[i] == line[i] && line[i] in line;
    assert Find(s, '\n', 0) == |line| + 1;
    assert s[..|line| + 1] == line + ['\r'] && s[|line| + 2..] == rest;
  }

  /** The file, written out. */
  lemma FileTextIs(exec: string)
    ensures FileText(exec) ==
            "[Desktop Entry]" + "\n" + ("Type=Application" + "\n" + ("Name=Dinotty" + "\n" + ("Exec=" + exec + "\n"
            + ("Terminal=false" + "\n" + ("X-Dinotty-Autostart=true" + "\n" + "")))))
  {
    hide Joined;
    var l := FieldLines(exec);
    var lines := ["[Desktop Entry]"] + l;
    assert lines[1..] == l;
    JoinedHead(lines);
    JoinedHead(l);
    JoinedHead(l[1..]);
    JoinedHead(l[1..][1..]);
    JoinedHead(l[1..][1..][1..]);
    JoinedHead(l[1..][1..][1..][1..]);
    assert l[1..][1..][1..][1..][1..] == [];
    assert Joined([]) == "" by { JoinedNone(); }
  }

  lemma JoinedHead(lines: seq<string>)
    requires lines != []
    ensures Joined(lines) == lines[0] + "\n" + Joined(lines[1..])
  {
  }

  lemma JoinedNone()
    ensures Joined([]) == ""
  {
  }

  predicate HasKey(line: string) {
    Find(line, '=', 0) < |line|
  }

  function KeyOf(line: string): string {
    line[..Find(line, '=', 0)]
  }

  /** Lines make fields exactly if each that is not empty has a key, and no key comes twice. */
  ghost predicate AreFields(lines: seq<string>, taken: set<string>) {
    && (forall i :: 0 <= i < |lines| && lines[i] != [] ==> HasKey(lines[i]) && KeyOf(lines[i]) !in taken)
    && (forall i, j :: 0 <= i < j < |lines| && lines[i] != [] && lines[j] != [] ==> KeyOf(lines[i]) != KeyOf(lines[j]))
  }

  lemma {:induction false} FieldsIff(lines: seq<string>, fields: map<string, string>)
    ensures ParseFields(lines, fields).Some? <==> AreFields(lines, fields.Keys)
    decreases |lines|
  {
    hide AreFields, KeyOf, HasKey, ParseFields;
    OneField(lines, fields);
    if lines == [] {
      assert AreFields([], fields.Keys) by { NoFields(fields.Keys); }
    } else if lines[0] == [] {
      FieldsIff(lines[1..], fields);
      SkipEmpty(lines, fields.Keys);
    } else if HasKey(lines[0]) && KeyOf(lines[0]) !in fields {
      var more := With(fields, lines[0]);
      FieldsIff(lines[1..], more);
      assert more.Keys == fields.Keys + {KeyOf(lines[0])};
      TakeKey(lines, fields.Keys);
    } else {
      assert !AreFields(lines, fields.Keys) by { BadLine(lines, fields.Keys); }
    }
  }

  function With(fields: map<string, string>, line: string): map<string, string>
    requires HasKey(line)
  {
    fields[KeyOf(line) := line[|KeyOf(line)| + 1..]]
  }

  /** What one line does. */
  lemma OneField(lines: seq<string>, fields: map<string, string>)
    ensures lines == [] ==> ParseFields(lines, fields) == Some(fields)
    ensures lines != [] && lines[0] == [] ==> ParseFields(lines, fields) == ParseFields(lines[1..], fields)
    ensures lines != [] && lines[0] != [] ==>
              ParseFields(lines, fields) ==
              if HasKey(lines[0]) && KeyOf(lines[0]) !in fields then ParseFields(lines[1..], With(fields, lines[0]))
              else None
  {
  }

  lemma NoFields(taken: set<string>)
    ensures AreFields([], taken)
  {
  }

  lemma BadLine(lines: seq<string>, taken: set<string>)
    requires lines != [] && lines[0] != [] && !(HasKey(lines[0]) && KeyOf(lines[0]) !in taken)
    ensures !AreFields(lines, taken)
  {
  }

  /** The fields are those of the lines, and those there were before. */
  lemma {:induction false} FieldsAre(lines: seq<string>, fields: map<string, string>)
    requires ParseFields(lines, fields).Some?
    ensures var parsed := ParseFields(lines, fields).value;
            && (forall key :: key in fields ==> key in parsed && parsed[key] == fields[key])
            && (forall i :: 0 <= i < |lines| && lines[i] != [] ==>
                  HasKey(lines[i]) && KeyOf(lines[i]) in parsed
                  && parsed[KeyOf(lines[i])] == lines[i][|KeyOf(lines[i])| + 1..])
            && (forall key :: key in parsed ==>
                  key in fields || exists i :: 0 <= i < |lines| && lines[i] != [] && KeyOf(lines[i]) == key)
    decreases |lines|
  {
    hide KeyOf, HasKey, ParseFields;
    OneField(lines, fields);
    if lines != [] {
      var rest := lines[1..];
      assert forall i :: 0 < i < |lines| ==> lines[i] == rest[i - 1];
      assert forall i :: 0 <= i < |rest| ==> rest[i] == lines[i + 1];
      FieldsAre(rest, if lines[0] == [] then fields else With(fields, lines[0]));
    }
  }

  lemma SkipEmpty(lines: seq<string>, taken: set<string>)
    requires lines != [] && lines[0] == []
    ensures AreFields(lines, taken) <==> AreFields(lines[1..], taken)
  {
    hide KeyOf, HasKey;
    var rest := lines[1..];
    assert forall i :: 0 <= i < |rest| ==> rest[i] == lines[i + 1];
    assert forall i :: 0 < i < |lines| ==> lines[i] == rest[i - 1];
  }

  lemma TakeKey(lines: seq<string>, taken: set<string>)
    requires lines != [] && lines[0] != [] && HasKey(lines[0]) && KeyOf(lines[0]) !in taken
    ensures AreFields(lines, taken) <==> AreFields(lines[1..], taken + {KeyOf(lines[0])})
  {
    hide KeyOf, HasKey;
    var rest := lines[1..];
    assert forall i :: 0 <= i < |rest| ==> rest[i] == lines[i + 1];
    assert forall i :: 0 < i < |lines| ==> lines[i] == rest[i - 1];
  }

  /** Without its header line a file is malformed, and without a file there is no registration. */
  lemma HeaderNeeded(contents: string)
    ensures Lines(contents) == [] || Lines(contents)[0] != "[Desktop Entry]" ==>
              ReadDesktopFile(Text(contents)) == Malformed
    ensures ReadDesktopFile(Absent) == Missing && ReadDesktopFile(NotText) == Malformed
  {
  }
}
