/** `buildPath` of frontend/src/api/endpoints.ts: one pass over the template, replacing each `:name`
    by the percent-encoded value. */
module Endpoints {
  import opened Prelude

  type Byte = n: int | 0 <= n < 256

  /** Parameter values as the bytes of their UTF-8 form. */
  type Params = map<string, seq<Byte>>

  predicate IsNameChar(c: char) {
    'A' <= c <= 'Z' || 'a' <= c <= 'z' || '0' <= c <= '9' || c == '_'
  }

  /** Length of the longest run of name characters that `s` starts with. */
  function NameLength(s: string): (n: nat)
    ensures n <= |s|
  {
    if s == [] || !IsNameChar(s[0]) then 0 else 1 + NameLength(s[1..])
  }

  // ---- encodeURIComponent ------------------------------------------------------------------

  /** What encodeURIComponent leaves as it is. */
  predicate IsPlain(c: char) {
    'A' <= c <= 'Z' || 'a' <= c <= 'z' || '0' <= c <= '9'
    || c in {'-', '_', '.', '!', '~', '*', '\'', '(', ')'}
  }

  function HexDigit(n: nat): char
    requires n < 16
  {
    if n < 10 then '0' + n as char else 'A' + (n - 10) as char
  }

  function EncodeByte(b: Byte): string {
    if IsPlain(b as char) then [b as char] else ['%', HexDigit(b / 16), HexDigit(b % 16)]
  }

  function Encode(value: seq<Byte>): string {
    if value == [] then "" else EncodeByte(value[0]) + Encode(value[1..])
  }

  function HexValue(c: char): Option<nat> {
    if '0' <= c <= '9' then Some((c - '0') as nat)
    else if 'A' <= c <= 'F' then Some((c - 'A') as nat + 10)
    else if 'a' <= c <= 'f' then Some((c - 'a') as nat + 10)
    else None
  }

  /** Percent-decoding, as in section 2.1 of RFC 3986. */
  function Decode(s: string): Option<seq<Byte>> {
    if s == [] then Some([])
    else if s[0] != '%' then
      if s[0] as int >= 128 then None
      else match Decode(s[1..])
        case None => None
        case Some(rest) => Some([s[0] as int] + rest)
    else if |s| < 3 || HexValue(s[1]).None? || HexValue(s[2]).None? then None
    else match Decode(s[3..])
      case None => None
      case Some(rest) => Some([HexValue(s[1]).value * 16 + HexValue(s[2]).value] + rest)
  }

  // ---- The template --------------------------------------------------------------------------

  function Prepend(s: string, r: Result<string, string>): Result<string, string> {
    match r
    case Err(e) => r
    case Ok(t) => Ok(s + t)
  }

  /** The filled path, or the name of the first parameter that is missing. */
  function BuildPath(path: string, params: Params): Result<string, string>
    decreases |path|
  {
    if path == [] then Ok("")
    else if path[0] == ':' && NameLength(path[1..]) > 0 then
      var n := NameLength(path[1..]);
      var key := path[1..n + 1];
      if key !in params then Err(key) else Prepend(Encode(params[key]), BuildPath(path[n + 1..], params))
    else Prepend([path[0]], BuildPath(path[1..], params))
  }

  // ---- Round trip ------------------------------------------------------------------------------

  lemma HexRoundTrip(n: nat)
    requires n < 16
    ensures HexValue(HexDigit(n)) == Some(n)
  {
  }

  lemma DecodesEscape(b: Byte, rest: string)
    requires !IsPlain(b as char)
    ensures Decode(EncodeByte(b) + rest) ==
            match Decode(rest) case None => None case Some(bytes) => Some([b] + bytes)
  {
    var s := EncodeByte(b) + rest;
    HexRoundTrip(b / 16);
    HexRoundTrip(b % 16);
    assert s[0] == '%' && s[1] == HexDigit(b / 16) && s[2] == HexDigit(b % 16) && s[3..] == rest;
  }

  lemma DecodesPlain(b: Byte, rest: string)
    requires IsPlain(b as char)
    ensures Decode(EncodeByte(b) + rest) ==
            match Decode(rest) case None => None case Some(bytes) => Some([b] + bytes)
  {
    assert (EncodeByte(b) + rest)[1..] == rest;
  }

  lemma {:induction false} DecodeEncodes(value: seq<Byte>)
    ensures Decode(Encode(value)) == Some(value)
  {
    if value != [] {
      DecodeEncodes(value[1..]);
      if IsPlain(value[0] as char) {
        DecodesPlain(value[0], Encode(value[1..]));
      } else {
        DecodesEscape(value[0], Encode(value[1..]));
      }
      assert [value[0]] + value[1..] == value;
    }
  }

  /** What stays as it is: digits, letters, and ! ' ( ) * - . _ ~, by their codes. */
  predicate StaysAsItIs(b: Byte) {
    48 <= b <= 57 || 65 <= b <= 90 || 97 <= b <= 122 || b in {33, 39, 40, 41, 42, 45, 46, 95, 126}
  }

  /** An upper-case hexadecimal digit, and what it stands for. */
  predicate IsHexDigit(c: char, n: nat) {
    if n < 10 then c as int == 48 + n else n < 16 && c as int == 55 + n
  }

  /** A byte is kept or becomes a percent sign and its two digits. */
  lemma EncodesByte(b: Byte)
    ensures if StaysAsItIs(b) then EncodeByte(b) == [b as char]
            else |EncodeByte(b)| == 3 && EncodeByte(b)[0] == '%'
                 && IsHexDigit(EncodeByte(b)[1], b / 16) && IsHexDigit(EncodeByte(b)[2], b % 16)
  {
  }

  /** Encoded text consists of those characters and percent signs: it holds none that ends a path, separates
      segments or starts a parameter. */
  lemma {:induction false} EncodedAlphabet(value: seq<Byte>, i: nat)
    requires i < |Encode(value)|
    ensures Encode(value)[i] == '%' || (Encode(value)[i] as int < 128 && StaysAsItIs(Encode(value)[i] as int))
  {
    var first := EncodeByte(value[0]);
    EncodesByte(value[0]);
    if i >= |first| {
      EncodedAlphabet(value[1..], i - |first|);
    }
  }

  /** A parameter name is the longest run of letters, digits and underscores. */
  lemma {:induction false} NameIsLongestRun(s: string)
    ensures forall i | 0 <= i < NameLength(s) :: IsWordChar(s[i])
    ensures NameLength(s) < |s| ==> !IsWordChar(s[NameLength(s)])
  {
    if s != [] && IsNameChar(s[0]) {
      NameIsLongestRun(s[1..]);
      assert forall i | 1 <= i < NameLength(s) :: s[i] == s[1..][i - 1];
    }
  }

  predicate IsWordChar(c: char) {
    48 <= c as int <= 57 || 65 <= c as int <= 90 || 97 <= c as int <= 122 || c as int == 95
  }

  /** Encoded text holds no character that separates segments or starts a parameter. */
  lemma {:induction false} EncodedIsInert(value: seq<Byte>)
    ensures '/' !in Encode(value) && ':' !in Encode(value)
  {
    if value != [] {
      EncodedIsInert(value[1..]);
      assert '/' !in EncodeByte(value[0]) && ':' !in EncodeByte(value[0]);
    }
  }

  /** A template whose parameters are whole segments. */
  datatype Segment = Literal(text: string) | Param(name: string)

  predicate IsName(s: string) {
    s != [] && forall i | 0 <= i < |s| :: IsWordChar(s[i])
  }

  predicate IsSegment(s: Segment) {
    match s
    case Literal(text) => '/' !in text && ':' !in text
    case Param(name) => IsName(name)
  }

  predicate WellFormed(segments: seq<Segment>) {
    forall i | 0 <= i < |segments| :: IsSegment(segments[i])
  }

  predicate AllGiven(segments: seq<Segment>, params: Params) {
    forall i | 0 <= i < |segments| :: segments[i].Param? ==> segments[i].name in params
  }

  function Text(s: Segment): string {
    match s
    case Literal(text) => text
    case Param(name) => ":" + name
  }

  function Filled(s: Segment, params: Params): string
    requires s.Param? ==> s.name in params
  {
    match s
    case Literal(text) => text
    case Param(name) => Encode(params[name])
  }

  function Template(segments: seq<Segment>): string {
    if segments == [] then ""
    else if |segments| == 1 then Text(segments[0])
    else Text(segments[0]) + ("/" + Template(segments[1..]))
  }

  function FilledTemplate(segments: seq<Segment>, params: Params): string
    requires AllGiven(segments, params)
  {
    if segments == [] then ""
    else if |segments| == 1 then Filled(segments[0], params)
    else Filled(segments[0], params) + ("/" + FilledTemplate(segments[1..], params))
  }

  /** Splitting a path on "/". */
  function Split(s: string): (parts: seq<string>)
    ensures |parts| > 0
  {
    if s == [] then [""]
    else if s[0] == '/' then [""] + Split(s[1..])
    else var parts := Split(s[1..]); [[s[0]] + parts[0]] + parts[1..]
  }

  lemma {:induction false} SplitJoined(part: string, rest: string)
    requires '/' !in part
    ensures Split(part) == [part]
    ensures Split(part + ("/" + rest)) == [part] + Split(rest)
  {
    if part == [] {
      assert ("/" + rest)[1..] == rest && part + ("/" + rest) == "/" + rest;
    } else {
      SplitJoined(part[1..], rest);
      assert (part + ("/" + rest))[1..] == part[1..] + ("/" + rest);
      assert [part[0]] + part[1..] == part;
    }
  }

  lemma {:induction false} BuildLiteral(text: string, rest: string, params: Params)
    requires ':' !in text
    ensures BuildPath(text + rest, params) == Prepend(text, BuildPath(rest, params))
  {
    if text == [] {
      assert text + rest == rest;
      PrependNothing(BuildPath(rest, params));
    } else {
      BuildLiteral(text[1..], rest, params);
      assert (text + rest)[1..] == text[1..] + rest && [text[0]] + text[1..] == text;
      PrependTwice([text[0]], text[1..], BuildPath(rest, params));
    }
  }

  lemma PrependNothing(r: Result<string, string>)
    ensures Prepend("", r) == r
  {
    if r.Ok? {
      assert "" + r.value == r.value;
    }
  }

  lemma PrependTwice(a: string, b: string, r: Result<string, string>)
    ensures Prepend(a, Prepend(b, r)) == Prepend(a + b, r)
  {
    if r.Ok? {
      assert a + (b + r.value) == a + b + r.value;
    }
  }

  lemma {:induction false} NameLengthOf(name: string, rest: string)
    requires forall i | 0 <= i < |name| :: IsNameChar(name[i])
    requires rest == [] || rest[0] == '/'
    ensures NameLength(name + rest) == |name|
  {
    if name == [] {
      assert name + rest == rest;
    } else {
      assert (name + rest)[1..] == name[1..] + rest;
      NameLengthOf(name[1..], rest);
    }
  }

  lemma BuildParam(name: string, rest: string, params: Params)
    requires IsName(name) && (rest == [] || rest[0] == '/')
    ensures BuildPath(":" + name + rest, params) ==
              if name !in params then Err(name) else Prepend(Encode(params[name]), BuildPath(rest, params))
  {
    var path := ":" + name + rest;
    assert path[1..] == name + rest;
    NameLengthOf(name, rest);
    assert path[1..|name| + 1] == name && path[|name| + 1..] == rest;
  }

  /** The name that is reported: the leftmost one that is missing. */
  function FirstMissing(segments: seq<Segment>, params: Params): Option<string> {
    if segments == [] then None
    else if segments[0].Param? && segments[0].name !in params then Some(segments[0].name)
    else FirstMissing(segments[1..], params)
  }

  /** Filling works segment by segment, whatever the values contain, and fails exactly when a
      parameter is missing. */
  lemma {:induction false} FillsSegmentwise(segments: seq<Segment>, params: Params)
    requires WellFormed(segments)
    ensures AllGiven(segments, params) <==> FirstMissing(segments, params).None?
    ensures BuildPath(Template(segments), params) ==
              if AllGiven(segments, params) then Ok(FilledTemplate(segments, params))
              else Err(FirstMissing(segments, params).value)
  {
    if segments != [] {
      var s, more := segments[0], segments[1..];
      FillsSegmentwise(more, params);
      var rest := if |segments| == 1 then "" else "/" + Template(more);
      assert Template(segments) == Text(s) + rest;
      if |segments| > 1 {
        BuildLiteral("/", Template(more), params);
      }
      match s {
        case Literal(text) => BuildLiteral(text, rest, params);
        case Param(name) => BuildParam(name, rest, params);
      }
      assert |segments| == 1 ==> more == [] && BuildPath(rest, params) == Ok("");
      assert AllGiven(segments, params) <==> (s.Param? ==> s.name in params) && AllGiven(more, params);
      if s.Param? ==> s.name in params {
        assert Filled(s, params) + "" == Filled(s, params);
        assert BuildPath(Template(segments), params) == Prepend(Filled(s, params), BuildPath(rest, params));
      }
    }
  }

  lemma {:induction false} SplitsIntoFilled(segments: seq<Segment>, params: Params)
    requires segments != [] && WellFormed(segments) && AllGiven(segments, params)
    ensures var parts := Split(FilledTemplate(segments, params));
            |parts| == |segments| && forall i | 0 <= i < |segments| :: parts[i] == Filled(segments[i], params)
  {
    var s := segments[0];
    if s.Param? {
      EncodedIsInert(params[s.name]);
    }
    if |segments| == 1 {
      SplitJoined(Filled(s, params), "");
    } else {
      var more := segments[1..];
      SplitsIntoFilled(more, params);
      SplitJoined(Filled(s, params), FilledTemplate(more, params));
      var parts := [Filled(s, params)] + Split(FilledTemplate(more, params));
      assert Split(FilledTemplate(segments, params)) == parts;
      assert forall i | 1 <= i < |segments| :: segments[i] == more[i - 1] && parts[i] == Filled(more[i - 1], params);
    }
  }

  /** Filling a template, splitting the path on "/" and percent-decoding recovers exactly the values,
      and the literal segments are untouched. */
  lemma TemplateRoundTrip(segments: seq<Segment>, params: Params)
    requires segments != [] && WellFormed(segments) && AllGiven(segments, params)
    ensures BuildPath(Template(segments), params).Ok?
    ensures var parts := Split(BuildPath(Template(segments), params).value);
            && |parts| == |segments|
            && forall i | 0 <= i < |segments| ::
                 && (segments[i].Literal? ==> parts[i] == segments[i].text)
                 && (segments[i].Param? ==> Decode(parts[i]) == Some(params[segments[i].name]))
  {
    FillsSegmentwise(segments, params);
    SplitsIntoFilled(segments, params);
    forall i | 0 <= i < |segments| && segments[i].Param?
      ensures Decode(Filled(segments[i], params)) == Some(params[segments[i].name])
    {
      DecodeEncodes(params[segments[i].name]);
    }
  }

  /** Two sets of values give the same path only if they agree on every parameter of the template. */
  lemma PathsAreInjective(segments: seq<Segment>, params: Params, other: Params, i: nat)
    requires segments != [] && WellFormed(segments) && AllGiven(segments, params) && AllGiven(segments, other)
    requires BuildPath(Template(segments), params) == BuildPath(Template(segments), other)
    requires i < |segments| && segments[i].Param?
    ensures params[segments[i].name] == other[segments[i].name]
  {
    TemplateRoundTrip(segments, params);
    TemplateRoundTrip(segments, other);
  }
}
