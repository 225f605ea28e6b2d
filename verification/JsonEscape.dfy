/** The JSON lines export: escaping a label, and reading a line back. */
module JsonEscape {
  import opened OpKinds
  import opened Wrappers

  // ---------------------------------------------------------------- json_escape

  function EscapeChar(c: char): string {
    if c == '"' then "\\\""
    else if c == '\\' then "\\\\"
    else if c == '\n' then "\\n"
    else if c == '\r' then "\\r"
    else if c == '\t' then "\\t"
    else [c]
  }

  function Escape(s: string): string { if s == [] then [] else EscapeChar(s[0]) + Escape(s[1..]) }

  method JsonEscape(s: string) returns (out: string)
    ensures out == Escape(s)
  {
    hide Escape, EscapeChar;
    out := "";
    var i := 0;
    EscapeEnds(s);
    while i < |s|
      invariant 0 <= i <= |s|
      invariant out + Escape(s[i..]) == Escape(s)
    {
      EscapeStep(s, i);
      var piece := AppendEscaped(out, s[i]);
      assert out + (EscapeChar(s[i]) + Escape(s[i + 1..])) == (out + EscapeChar(s[i])) + Escape(s[i + 1..]);
      out := piece;
      i := i + 1;
    }
  }

  /** The switch of json_escape. */
  method AppendEscaped(out: string, c: char) returns (longer: string)
    ensures longer == out + EscapeChar(c)
  {
    if c == '"' {
      longer := out + "\\\"";
    } else if c == '\\' {
      longer := out + "\\\\";
    } else if c == '\n' {
      longer := out + "\\n";
    } else if c == '\r' {
      longer := out + "\\r";
    } else if c == '\t' {
      longer := out + "\\t";
    } else {
      longer := out + [c];
    }
  }

  lemma EscapeEnds(s: string)
    ensures s[0..] == s && s[|s|..] == [] && Escape([]) == []
  {}

  lemma EscapeStep(s: string, i: nat)
    requires i < |s|
    ensures Escape(s[i..]) == EscapeChar(s[i]) + Escape(s[i + 1..])
  {
    assert s[i..][1..] == s[i + 1..];
  }

  // ---------------------------------------------------------------- strings by section 7 of RFC 8259

  predicate HexDigit(c: char) { '0' <= c <= '9' || 'a' <= c <= 'f' || 'A' <= c <= 'F' }

  /** `unescaped` in the grammar. */
  predicate Unescaped(c: char) { ' ' <= c && c != '"' && c != '\\' }

  /** The characters between the quotation marks form a legal string. */
  predicate IsBody(t: string) {
    if t == [] then true
    else if t[0] != '\\' then Unescaped(t[0]) && IsBody(t[1..])
    else if |t| < 2 then false
    else if t[1] == 'u' then |t| >= 6 && (forall i | 2 <= i < 6 :: HexDigit(t[i])) && IsBody(t[6..])
    else t[1] in "\"\\/bfnrt" && IsBody(t[2..])
  }

  /** A scanner started after the opening quotation mark: the position of the closing one. */
  function Scan(t: string): (r: Option<nat>)
    ensures r.Some? ==> r.value < |t| && t[r.value] == '"'
  {
    if t == [] then None
    else if t[0] == '"' then Some(0)
    else
      var k := if t[0] == '\\' then 2 else 1;
      if |t| < k then None
      else match Scan(t[k..]) case None => None case Some(i) => Some(i + k)
  }

  function UnescapeChar(c: char): Option<char> {
    if c == '"' || c == '\\' || c == '/' then Some(c)
    else if c == 'b' then Some(0x8 as char)
    else if c == 'f' then Some(0xC as char)
    else if c == 'n' then Some('\n')
    else if c == 'r' then Some('\r')
    else if c == 't' then Some('\t')
    else None
  }

  /** Decode a body; None for an escape json_escape never writes. */
  function Unescape(t: string): Option<string> {
    if t == [] then Some([])
    else if t[0] != '\\' then
      match Unescape(t[1..]) case None => None case Some(rest) => Some([t[0]] + rest)
    else if |t| < 2 then None
    else
      match (UnescapeChar(t[1]), Unescape(t[2..]))
      case (Some(c), Some(rest)) => Some([c] + rest)
      case _ => None
  }

  predicate Short(c: char) { c == '"' || c == '\\' || c == '\n' || c == '\r' || c == '\t' }

  /** One escaped character in front of a text: its first character, its length, and what is behind it. */
  lemma Front(c: char, rest: string)
    ensures var t := EscapeChar(c) + rest;
            && |EscapeChar(c)| == (if Short(c) then 2 else 1) && t[|EscapeChar(c)|..] == rest
            && (Short(c) ==> t[0] == '\\' && |t| >= 2 && t[1] == EscapeChar(c)[1])
            && (!Short(c) ==> t[0] == c)
  {
    if Short(c) {
      assert |EscapeChar(c)| == 2;
    } else {
      assert EscapeChar(c) == [c];
    }
  }

  lemma UnescapeFront(c: char, rest: string)
    requires Unescape(rest).Some?
    ensures Unescape(EscapeChar(c) + rest) == Some([c] + Unescape(rest).value)
  {
    Front(c, rest);
    assert Short(c) ==> UnescapeChar(EscapeChar(c)[1]) == Some(c);
  }

  lemma ScanFront(c: char, rest: string)
    requires Scan(rest).Some?
    ensures Scan(EscapeChar(c) + rest) == Some(|EscapeChar(c)| + Scan(rest).value)
  {
    Front(c, rest);
  }

  lemma BodyFront(c: char, rest: string)
    ensures IsBody(EscapeChar(c) + rest) <==> (Short(c) || ' ' <= c) && IsBody(rest)
  {
    Front(c, rest);
    assert Short(c) ==> EscapeChar(c)[1] in "\"\\/bfnrt";
  }

  /** Whatever the label, decoding its escaped form gives it back. */
  lemma {:induction false} UnescapeEscape(s: string)
    ensures Unescape(Escape(s)) == Some(s)
  {
    hide Unescape, EscapeChar;
    if s == [] {
      NothingEscaped();
    } else {
      UnescapeEscape(s[1..]);
      UnescapeFront(s[0], Escape(s[1..]));
      assert s == [s[0]] + s[1..];
    }
  }

  lemma NothingEscaped()
    ensures Unescape([]) == Some([]) && IsBody([]) && Escape([]) == []
  {}

  /** Whatever the label, a scanner stops exactly at the quotation mark written after its escaped form. */
  lemma {:induction false} ScanStopsAtEnd(s: string, tail: string)
    ensures Scan(Escape(s) + "\"" + tail) == Some(|Escape(s)|)
  {
    hide Scan, EscapeChar;
    if s == [] {
      QuoteEnds(tail);
      assert Escape(s) + "\"" + tail == "\"" + tail;
    } else {
      ScanStopsAtEnd(s[1..], tail);
      var rest := Escape(s[1..]) + "\"" + tail;
      ScanFront(s[0], rest);
      assert Escape(s) + "\"" + tail == EscapeChar(s[0]) + rest;
    }
  }

  lemma QuoteEnds(tail: string)
    ensures Scan("\"" + tail) == Some(0)
  {}

  predicate NoStrayControl(s: string) { forall i | 0 <= i < |s| :: ' ' <= s[i] || s[i] == '\n' || s[i] == '\r' || s[i] == '\t' }

  /** The body is a legal JSON string if and only if the label has no control character but \n, \r and \t. */
  lemma {:induction false} BodyIsLegalIff(s: string)
    ensures IsBody(Escape(s)) <==> NoStrayControl(s)
  {
    hide IsBody, EscapeChar;
    if s == [] {
      NothingEscaped();
    } else {
      BodyIsLegalIff(s[1..]);
      BodyFront(s[0], Escape(s[1..]));
      assert s == [s[0]] + s[1..];
    }
  }

  /** Line breaks never survive escaping: one record stays on one line. */
  lemma {:induction false} NoLineBreak(s: string)
    ensures '\n' !in Escape(s) && '\r' !in Escape(s)
  {
    if s != [] {
      NoLineBreak(s[1..]);
    }
  }

  // ---------------------------------------------------------------- to_json_line

  function ToString(kind: OpKind): string {
    match kind
    case Gemm => "gemm"
    case Gemv => "gemv"
    case Elementwise => "elementwise"
    case Reduction => "reduction"
    case Attention => "attention"
    case Conv2D => "conv2d"
    case GraphReplay => "graph_replay"
    case Memcpy => "memcpy"
    case Other => "other"
  }

  function Decimal(n: nat): string { if n < 10 then [Digit(n)] else Decimal(n / 10) + [Digit(n % 10)] }

  function Digit(d: nat): char
    requires d < 10
  {
    "0123456789"[d]
  }

  /** A record as printed; timestamps, durations and counts are given as their printed text. */
  datatype Line = Line(sequence: nat, name: string, kind: OpKind, timestamp: string, duration: string, stream: string,
                       fromReplay: bool, bytes: string, gflops: string)

  function Key(opener: char, name: string): string { [opener] + "\"" + name + "\":" }

  function Fields(fields: seq<(string, string)>): string {
    if fields == [] then [] else Key(',', fields[0].0) + fields[0].1 + Fields(fields[1..])
  }

  function BoolText(b: bool): string { if b then "true" else "false" }

  function Numbers(r: Line): seq<(string, string)> {
    [("host_timestamp_ms", r.timestamp), ("duration_ms", r.duration), ("stream_id", r.stream),
     ("from_graph_replay", BoolText(r.fromReplay)), ("bytes_moved", r.bytes), ("gflops", r.gflops)]
  }

  function ToJsonLine(r: Line): string {
    Key('{', "sequence_id") + Decimal(r.sequence) + Key(',', "label") + "\"" + Escape(r.name) + "\""
    + Key(',', "op_kind") + "\"" + ToString(r.kind) + "\"" + Fields(Numbers(r)) + "}"
  }

  // ---------------------------------------------------------------- reading a line back

  /** What follows the key of that name and its colon, with '{' or ',' in front. */
  function Field(t: string, opener: char, name: string): Option<string> {
    var n := |name|;
    if |t| >= n + 4 && t[0] == opener && t[1] == '"' && t[2..n + 2] == name && t[n + 2] == '"' && t[n + 3] == ':'
    then Some(t[n + 4..]) else None
  }

  function ReadDigits(t: string, value: nat): (nat, string) {
    if t != [] && '0' <= t[0] <= '9' then ReadDigits(t[1..], 10 * value + (t[0] - '0') as nat) else (value, t)
  }

  /** A quoted string, and the text behind its closing quotation mark. */
  function ReadString(t: string): Option<(string, string)> {
    if t == [] || t[0] != '"' then None
    else
      match Scan(t[1..])
      case None => None
      case Some(i) =>
        match Unescape(t[1..][..i]) case None => None case Some(s) => Some((s, t[1..][i + 1..]))
  }

  /** A number or a literal: the text up to the next ',' or '}'. */
  function ReadToken(t: string): (string, string) {
    if t == [] || t[0] == ',' || t[0] == '}' then ([], t)
    else var (token, rest) := ReadToken(t[1..]); ([t[0]] + token, rest)
  }

  function ReadFields(t: string, names: seq<string>): Option<(seq<string>, string)>
    decreases |names|
  {
    if names == [] then Some(([], t))
    else
      match Field(t, ',', names[0])
      case None => None
      case Some(t) =>
        var (token, rest) := ReadToken(t);
        match ReadFields(rest, names[1..]) case None => None case Some((tokens, rest)) => Some(([token] + tokens, rest))
  }

  function KindOf(name: string): Option<OpKind> {
    if name == "gemm" then Some(Gemm)
    else if name == "gemv" then Some(Gemv)
    else if name == "elementwise" then Some(Elementwise)
    else if name == "reduction" then Some(Reduction)
    else if name == "attention" then Some(Attention)
    else if name == "conv2d" then Some(Conv2D)
    else if name == "graph_replay" then Some(GraphReplay)
    else if name == "memcpy" then Some(Memcpy)
    else if name == "other" then Some(Other)
    else None
  }

  function NumberNames(): seq<string> {
    ["host_timestamp_ms", "duration_ms", "stream_id", "from_graph_replay", "bytes_moved", "gflops"]
  }

  function ReadNumbers(t: string, sequence: nat, name: string, kind: OpKind): Option<Line> {
    match ReadFields(t, NumberNames())
    case None => None
    case Some((v, rest)) =>
      if |v| != 6 || rest != "}" || (v[3] != "true" && v[3] != "false") then None
      else Some(Line(sequence, name, kind, v[0], v[1], v[2], v[3] == "true", v[4], v[5]))
  }

  function ReadKind(t: string, sequence: nat, name: string): Option<Line> {
    match Field(t, ',', "op_kind")
    case None => None
    case Some(t) =>
      match ReadString(t)
      case None => None
      case Some((kind, t)) =>
        match KindOf(kind) case None => None case Some(kind) => ReadNumbers(t, sequence, name, kind)
  }

  function ReadLabel(t: string, sequence: nat): Option<Line> {
    match Field(t, ',', "label")
    case None => None
    case Some(t) =>
      match ReadString(t) case None => None case Some((name, t)) => ReadKind(t, sequence, name)
  }

  function ReadLine(t: string): Option<Line> {
    match Field(t, '{', "sequence_id")
    case None => None
    case Some(t) => var (sequence, t) := ReadDigits(t, 0); ReadLabel(t, sequence)
  }

  lemma {:induction false} DigitsBack(n: nat, tail: string)
    ensures ReadDigits(Decimal(n) + tail, 0) == ReadDigits(tail, n)
  {
    hide ReadDigits, Digit;
    if n < 10 {
      DigitBack(n, 0, tail);
    } else {
      DigitsBack(n / 10, [Digit(n % 10)] + tail);
      DigitBack(n % 10, n / 10, tail);
      assert Decimal(n) + tail == Decimal(n / 10) + ([Digit(n % 10)] + tail);
    }
  }

  lemma DigitBack(d: nat, value: nat, tail: string)
    requires d < 10
    ensures ReadDigits([Digit(d)] + tail, value) == ReadDigits(tail, 10 * value + d)
  {
    assert ([Digit(d)] + tail)[1..] == tail && Digit(d) - '0' == d as char;
  }

  lemma DigitsStop(tail: string, value: nat)
    requires tail != [] && tail[0] == ','
    ensures ReadDigits(tail, value) == (value, tail)
  {}

  lemma FieldBack(opener: char, name: string, tail: string)
    ensures Field(Key(opener, name) + tail, opener, name) == Some(tail)
    ensures (Key(opener, name) + tail)[0] == opener
  {
    var t, n := Key(opener, name) + tail, |name|;
    assert t[2..n + 2] == name && t[n + 4..] == tail;
  }

  lemma StringBack(s: string, tail: string)
    ensures ReadString("\"" + Escape(s) + "\"" + tail) == Some((s, tail))
  {
    hide Scan, Escape, Unescape;
    var t := Escape(s) + "\"" + tail;
    ScanStopsAtEnd(s, tail);
    UnescapeEscape(s);
    assert ("\"" + Escape(s) + "\"" + tail)[1..] == t;
    assert t[..|Escape(s)|] == Escape(s) && t[|Escape(s)| + 1..] == tail;
  }

  lemma {:induction false} PlainIsItself(s: string)
    requires forall i | 0 <= i < |s| :: !Short(s[i])
    ensures Escape(s) == s
  {
    if s != [] {
      PlainIsItself(s[1..]);
      Front(s[0], Escape(s[1..]));
      assert s == [s[0]] + s[1..];
    }
  }

  lemma KindsArePlain(kind: OpKind)
    ensures forall i | 0 <= i < |ToString(kind)| :: !Short(ToString(kind)[i])
  {}

  /** Each kind is printed under its own name. */
  lemma KindBack(kind: OpKind)
    ensures KindOf(ToString(kind)) == Some(kind)
  {}

  predicate IsToken(s: string) { forall i | 0 <= i < |s| :: s[i] != ',' && s[i] != '}' }

  lemma {:induction false} TokenBack(s: string, tail: string)
    requires IsToken(s) && tail != [] && (tail[0] == ',' || tail[0] == '}')
    ensures ReadToken(s + tail) == (s, tail)
  {
    if s == [] {
      assert s + tail == tail;
    } else {
      TokenBack(s[1..], tail);
      assert (s + tail)[1..] == s[1..] + tail && s == [s[0]] + s[1..];
    }
  }

  function Names(fields: seq<(string, string)>): seq<string> { seq(|fields|, i requires 0 <= i < |fields| => fields[i].0) }

  function Values(fields: seq<(string, string)>): seq<string> { seq(|fields|, i requires 0 <= i < |fields| => fields[i].1) }

  lemma {:induction false} FieldsBack(fields: seq<(string, string)>)
    requires forall i | 0 <= i < |fields| :: IsToken(fields[i].1)
    ensures ReadFields(Fields(fields) + "}", Names(fields)) == Some((Values(fields), "}"))
    ensures (Fields(fields) + "}")[0] == if fields == [] then '}' else ','
  {
    hide Key, Field, ReadToken, IsToken;
    if fields == [] {
      assert Names(fields) == [] && Values(fields) == [] && Fields(fields) + "}" == "}";
    } else {
      var tail := Fields(fields[1..]) + "}";
      FieldsBack(fields[1..]);
      var f := fields[0];
      assert Fields(fields) + "}" == Key(',', f.0) + (f.1 + tail);
      FieldBack(',', f.0, f.1 + tail);
      TokenBack(f.1, tail);
      assert Names(fields)[1..] == Names(fields[1..]) && Values(fields) == [f.1] + Values(fields[1..]);
    }
  }

  /** The number texts are tokens. */
  predicate IsPrinted(r: Line) {
    IsToken(r.timestamp) && IsToken(r.duration) && IsToken(r.stream) && IsToken(r.bytes) && IsToken(r.gflops)
  }

  lemma NumbersBack(r: Line)
    requires IsPrinted(r)
    ensures ReadNumbers(Fields(Numbers(r)) + "}", r.sequence, r.name, r.kind) == Some(r)
  {
    hide Fields, ReadFields, IsToken;
    BoolIsToken(r.fromReplay);
    FieldsBack(Numbers(r));
    NamesOfNumbers(r);
    assert Values(Numbers(r)) == [r.timestamp, r.duration, r.stream, BoolText(r.fromReplay), r.bytes, r.gflops];
  }

  lemma NamesOfNumbers(r: Line)
    ensures Names(Numbers(r)) == NumberNames()
  {}

  lemma BoolIsToken(b: bool)
    ensures IsToken(BoolText(b)) && (BoolText(b) == "true" <==> b) && (BoolText(b) == "false" <==> !b)
  {}

  /** Reading an exported line gives back the whole record, whatever the label: each value is under its own key. */
  lemma ReadBack(r: Line)
    requires IsPrinted(r)
    ensures ReadLine(ToJsonLine(r)) == Some(r)
  {
    hide Key, Field, Escape, Decimal, ToString, Numbers, Fields, ReadDigits, ReadString, ReadNumbers, KindOf, IsPrinted;
    var numbers := Fields(Numbers(r)) + "}";
    var kind := "\"" + Escape(ToString(r.kind)) + "\"" + numbers;
    var name := "\"" + Escape(r.name) + "\"" + (Key(',', "op_kind") + kind);
    var rest := Key(',', "label") + name;
    KindsArePlain(r.kind);
    PlainIsItself(ToString(r.kind));
    assert ToJsonLine(r) == Key('{', "sequence_id") + (Decimal(r.sequence) + rest);
    FieldBack('{', "sequence_id", Decimal(r.sequence) + rest);
    FieldBack(',', "label", name);
    KeyNotEmpty(',', "label");
    DigitsBack(r.sequence, rest);
    DigitsStop(rest, r.sequence);
    StringBack(r.name, Key(',', "op_kind") + kind);
    FieldBack(',', "op_kind", kind);
    StringBack(ToString(r.kind), numbers);
    KindBack(r.kind);
    NumbersBack(r);
  }

  lemma KeyNotEmpty(opener: char, name: string)
    ensures Key(opener, name) != []
  {}
}
