/** Building the upstream request: percent-encoded path substitution, query, headers and body. A text is
    the sequence of its UTF-8 bytes, one character below 256 for each. */
module Dispatch {
  import opened Wrappers
  import PayloadPaths

  // --- percent-encoding (sections 2.1 and 2.3 of RFC 3986) ---

  predicate IsBytes(s: string) { forall c <- s :: c as int < 256 }

  predicate Unreserved(c: char) {
    'a' <= c <= 'z' || 'A' <= c <= 'Z' || '0' <= c <= '9' || c == '_' || c == '.' || c == '-' || c == '~'
  }

  function HexDigit(n: nat): char
    requires n < 16
  {
    "0123456789ABCDEF"[n]
  }

  function HexValue(c: char): Option<nat> {
    if '0' <= c <= '9' then Some(c as int - '0' as int)
    else if 'A' <= c <= 'F' then Some(c as int - 'A' as int + 10)
    else if 'a' <= c <= 'f' then Some(c as int - 'a' as int + 10)
    else None
  }

  lemma HexRoundTrip(n: nat)
    requires n < 16
    ensures HexValue(HexDigit(n)) == Some(n)
  {
  }

  function QuoteByte(c: char): string
    requires c as int < 256
  {
    if Unreserved(c) then [c] else ['%', HexDigit(c as int / 16), HexDigit(c as int % 16)]
  }

  /** Percent-encodes every byte that is not unreserved, '/' included. */
  function Quote(s: string): string
    requires IsBytes(s)
  {
    if s == [] then [] else
      assert s[0] in s && forall c <- s[1..] :: c in s;
      QuoteByte(s[0]) + Quote(s[1..])
  }

  /** Decodes each '%' with two hex digits, and leaves every other character alone. */
  function Unquote(s: string): string {
    if s == [] then []
    else if s[0] == '%' && 3 <= |s| && HexValue(s[1]).Some? && HexValue(s[2]).Some? then
      [(HexValue(s[1]).value * 16 + HexValue(s[2]).value) as char] + Unquote(s[3..])
    else [s[0]] + Unquote(s[1..])
  }

  lemma UnquoteOneByte(c: char, rest: string)
    requires c as int < 256
    ensures Unquote(QuoteByte(c) + rest) == [c] + Unquote(rest)
  {
    var s := QuoteByte(c) + rest;
    if Unreserved(c) {
      assert s[1..] == rest;
    } else {
      assert s[3..] == rest;
      HexRoundTrip(c as int / 16);
      HexRoundTrip(c as int % 16);
    }
  }

  /** Decoding undoes encoding. */
  lemma {:induction false} UnquoteQuote(s: string)
    requires IsBytes(s)
    ensures Unquote(Quote(s)) == s
  {
    if s != [] {
      hide Unquote, QuoteByte;
      assert s[0] in s && forall c <- s[1..] :: c in s;
      UnquoteQuote(s[1..]);
      UnquoteOneByte(s[0], Quote(s[1..]));
      assert [s[0]] + s[1..] == s;
    } else {
      assert Unquote([]) == [];
    }
  }

  lemma BytesConcat(a: string, b: string)
    ensures IsBytes(a + b) <==> IsBytes(a) && IsBytes(b)
  {
    assert forall c :: c in a + b <==> c in a || c in b;
  }

  lemma {:induction false} QuoteConcat(a: string, b: string)
    requires IsBytes(a) && IsBytes(b)
    ensures IsBytes(a + b) && Quote(a + b) == Quote(a) + Quote(b)
  {
    BytesConcat(a, b);
    if a == [] {
      assert a + b == b;
    } else {
      assert a == [a[0]] + a[1..];
      BytesConcat([a[0]], a[1..]);
      BytesConcat(a[1..], b);
      hide QuoteByte, IsBytes;
      assert (a + b)[1..] == a[1..] + b;
      QuoteConcat(a[1..], b);
    }
  }

  /** Encoding goes byte by byte: letters, digits, '_', '.', '-' and '~' stay as they are, and any other
      byte becomes '%' and its two upper-case hex digits. */
  lemma QuotedByte(s: string, i: nat) returns (written: string)
    requires (forall k :: 0 <= k < |s| ==> s[k] as int < 256) && i < |s|
    ensures IsBytes(s) && IsBytes(s[..i]) && IsBytes(s[i + 1..])
    ensures Quote(s) == Quote(s[..i]) + written + Quote(s[i + 1..])
    ensures var c := s[i];
            written == if 'a' <= c <= 'z' || 'A' <= c <= 'Z' || '0' <= c <= '9' || c in "_.-~" then [c]
                       else ['%', "0123456789ABCDEF"[c as int / 16], "0123456789ABCDEF"[c as int % 16]]
  {
    var c, rest := s[i], s[i + 1..];
    assert s == s[..i] + s[i..] && s[i..] == [c] + rest;
    BytesConcat(s[..i], s[i..]);
    BytesConcat([c], rest);
    QuoteConcat(s[..i], s[i..]);
    QuoteConcat([c], rest);
    written := QuoteByte(c);
    assert Quote([c]) == written by { assert [c][1..] == []; }
    hide Quote;
  }

  /** The character at i is a letter, a digit or one of "_.-~", or it belongs to the '%' at position `at` and
      two upper-case hex digits. */
  ghost predicate Encodes(text: string, i: nat, at: nat)
    requires i < |text|
  {
    var c := text[i];
    || 'a' <= c <= 'z' || 'A' <= c <= 'Z' || '0' <= c <= '9' || c in "_.-~"
    || (&& at <= i < at + 3 <= |text| && text[at] == '%'
        && text[at + 1] in "0123456789ABCDEF" && text[at + 2] in "0123456789ABCDEF")
  }

  lemma EncodesInConcat(a: string, text: string, b: string, i: nat, at: nat)
    requires i < |text| && Encodes(text, i, at)
    ensures Encodes(a + text + b, |a| + i, |a| + at)
  {
    assert forall k :: 0 <= k < |text| ==> (a + text + b)[|a| + k] == text[k];
  }

  lemma OneByteEncodes(c: char, i: nat)
    requires c as int < 256 && i < |QuoteByte(c)|
    ensures Encodes(QuoteByte(c), i, 0)
  {
  }

  /** Every character of an encoded text is unreserved or belongs to an encoded byte. */
  lemma {:induction false} QuotedCharacter(s: string, i: nat) returns (at: nat)
    requires IsBytes(s) && i < |Quote(s)|
    ensures Encodes(Quote(s), i, at)
  {
    hide QuoteByte, Encodes;
    assert s[0] in s && forall c <- s[1..] :: c in s;
    var first, rest := QuoteByte(s[0]), Quote(s[1..]);
    if i < |first| {
      OneByteEncodes(s[0], i);
      EncodesInConcat([], first, rest, i, 0);
      assert [] + first + rest == first + rest;
      at := 0;
    } else {
      at := QuotedCharacter(s[1..], i - |first|);
      EncodesInConcat(first, rest, [], i - |first|, at);
      assert first + rest + [] == first + rest;
      at := at + |first|;
    }
  }

  /** Neither unreserved, nor '%', nor a placeholder's brace. */
  predicate Delimiter(c: char) {
    !('a' <= c <= 'z' || 'A' <= c <= 'Z' || '0' <= c <= '9' || c in "_.-~%{}")
  }

  lemma {:induction false} NoDelimiterQuoted(s: string, c: char)
    requires IsBytes(s) && Delimiter(c)
    ensures c !in Quote(s)
  {
    if s != [] {
      hide QuoteByte, Delimiter;
      assert s[0] in s && forall b <- s[1..] :: b in s;
      NoDelimiterQuoted(s[1..], c);
      NoDelimiterInByte(s[0], c);
    }
  }

  lemma NoDelimiterInByte(b: char, c: char)
    requires b as int < 256 && Delimiter(c)
    ensures c !in QuoteByte(b)
  {
    assert forall n :: 0 <= n < 16 ==> "0123456789ABCDEF"[n] != c;
  }

  /** Free of braces and slashes, so neither a placeholder nor a segment boundary can arise in it. */
  predicate Inert(s: string) { '{' !in s && '}' !in s && '/' !in s }

  lemma {:induction false} QuoteIsInert(s: string)
    requires IsBytes(s)
    ensures Inert(Quote(s))
  {
    if s != [] {
      hide QuoteByte;
      assert s[0] in s && forall c <- s[1..] :: c in s;
      QuoteIsInert(s[1..]);
      QuoteByteIsInert(s[0]);
    }
  }

  lemma QuoteByteIsInert(c: char)
    requires c as int < 256
    ensures Inert(QuoteByte(c))
  {
    assert forall n :: 0 <= n < 16 ==> "0123456789ABCDEF"[n] !in "{}/%";
  }

  // --- str.replace and templates ---

  /** Python's replace: left to right, without overlaps, and not looking into what it put in. */
  function Replace(s: string, pattern: string, value: string): string
    requires pattern != []
  {
    if s == [] then []
    else if pattern <= s then value + Replace(s[|pattern|..], pattern, value)
    else [s[0]] + Replace(s[1..], pattern, value)
  }

  /** A path template: literal text and placeholders. */
  datatype Piece = Lit(text: string) | Var(name: string)

  function Placeholder(name: string): string { "{" + name + "}" }

  function RenderPiece(piece: Piece): string {
    match piece
    case Lit(text) => text
    case Var(name) => Placeholder(name)
  }

  function Render(pieces: seq<Piece>): string {
    if pieces == [] then [] else RenderPiece(pieces[0]) + Render(pieces[1..])
  }

  /** Placeholders do not nest: no braces inside a name or in literal text. */
  predicate NotNested(pieces: seq<Piece>) {
    forall piece <- pieces :: match piece
                              case Lit(text) => '{' !in text && '}' !in text
                              case Var(name) => Inert(name)
  }

  function FillPiece(piece: Piece, values: map<string, string>): Piece {
    if piece.Var? && piece.name in values then Lit(values[piece.name]) else piece
  }

  /** Simultaneous substitution. */
  function Fill(pieces: seq<Piece>, values: map<string, string>): seq<Piece> {
    if pieces == [] then [] else [FillPiece(pieces[0], values)] + Fill(pieces[1..], values)
  }

  lemma {:induction false} ReplaceSkips(text: string, rest: string, pattern: string, value: string)
    requires pattern != [] && pattern[0] !in text
    ensures Replace(text + rest, pattern, value) == text + Replace(rest, pattern, value)
  {
    if text == [] {
      assert text + rest == rest;
    } else {
      assert text[0] in text && forall c <- text[1..] :: c in text;
      assert (text + rest)[1..] == text[1..] + rest;
      ReplaceSkips(text[1..], rest, pattern, value);
      assert (text + rest)[0] == text[0] != pattern[0];
    }
  }

  lemma ReplaceHere(rest: string, pattern: string, value: string)
    requires pattern != []
    ensures Replace(pattern + rest, pattern, value) == value + Replace(rest, pattern, value)
  {
    assert (pattern + rest)[|pattern|..] == rest;
  }

  lemma SamePlaceholder(name: string, other: string, rest: string)
    requires Inert(name) && Inert(other)
    ensures Placeholder(name) <= Placeholder(other) + rest <==> name == other
  {
    var pattern, s := Placeholder(name), Placeholder(other) + rest;
    if pattern <= s {
      assert forall i :: 0 <= i < |name| ==> name[i] == pattern[i + 1] == s[i + 1];
      assert forall i :: 0 <= i < |other| ==> other[i] == s[i + 1];
      assert s[|other| + 1] == '}' && s[|name| + 1] == pattern[|name| + 1] == '}';
      assert |name| == |other|;
      assert name == other;
    }
  }

  /** One replace is one substitution. */
  lemma {:induction false} ReplaceIsFill(pieces: seq<Piece>, name: string, value: string)
    requires NotNested(pieces) && Inert(name)
    ensures Replace(Render(pieces), Placeholder(name), value) == Render(Fill(pieces, map[name := value]))
  {
    if pieces != [] {
      hide Replace;
      var first, rest := pieces[0], Render(pieces[1..]);
      assert first in pieces && forall piece <- pieces[1..] :: piece in pieces;
      ReplaceIsFill(pieces[1..], name, value);
      match first
      case Lit(text) => ReplaceSkips(text, rest, Placeholder(name), value);
      case Var(other) =>
        if other == name {
          ReplaceHere(rest, Placeholder(name), value);
        } else {
          ReplacePast(other, name, rest, value);
        }
    } else {
      assert Replace([], Placeholder(name), value) == [];
    }
  }

  lemma ReplacePast(other: string, name: string, rest: string, value: string)
    requires Inert(name) && Inert(other) && name != other
    ensures Replace(Placeholder(other) + rest, Placeholder(name), value)
            == Placeholder(other) + Replace(rest, Placeholder(name), value)
  {
    SamePlaceholder(name, other, rest);
    var s := Placeholder(other) + rest;
    assert s[1..] == (other + "}") + rest;
    ReplaceSkips(other + "}", rest, Placeholder(name), value);
    assert Placeholder(other) == "{" + (other + "}");
  }

  lemma {:induction false} FillTwice(pieces: seq<Piece>, values: map<string, string>, name: string, value: string)
    requires name in values ==> values[name] == value
    ensures Fill(Fill(pieces, values), map[name := value]) == Fill(pieces, values[name := value])
  {
    if pieces != [] { FillTwice(pieces[1..], values, name, value); }
  }

  lemma {:induction false} FillKeepsNotNested(pieces: seq<Piece>, values: map<string, string>)
    requires NotNested(pieces) && forall name <- values.Keys :: Inert(values[name])
    ensures NotNested(Fill(pieces, values))
  {
    if pieces != [] {
      assert pieces[0] in pieces && forall piece <- pieces[1..] :: piece in pieces;
      FillKeepsNotNested(pieces[1..], values);
    }
  }

  lemma {:induction false} FillNothing(pieces: seq<Piece>)
    ensures Fill(pieces, map[]) == pieces
  {
    if pieces != [] { FillNothing(pieces[1..]); }
  }

  // --- the request ---

  /** An argument as the tool call carries it; `Text` is what str() makes of a value that is no boolean. */
  datatype Value = Null | Bool(b: bool) | Text(s: string)

  function ToWire(value: Value): string {
    match value
    case Null => ""
    case Bool(b) => if b then "true" else "false"
    case Text(s) => s
  }

  datatype Location = Path | Query | Header

  datatype Parameter = Parameter(name: string, location: Location, required: bool)

  datatype Operation = Operation(
    httpMethod: string, path: seq<Piece>, parameters: seq<Parameter>, fixedQuery: map<string, string>,
    bodyRequired: bool, hasJsonBody: bool)

  datatype Request = Request(
    httpMethod: string, url: string, query: map<string, string>, headers: map<string, string>, body: Option<Value>)

  datatype BuildError = MissingParameter(name: string) | MissingBody

  datatype Built = Ok(request: Request) | Err(error: BuildError)

  type Arguments = map<string, Value>

  predicate Given(arguments: Arguments, name: string) { name in arguments && arguments[name] != Null }

  /** What the caller gave for the parameters of one location. */
  function Supplied(parameters: seq<Parameter>, arguments: Arguments, location: Location): map<string, Value> {
    map p | p in parameters && p.location == location && Given(arguments, p.name) :: p.name := arguments[p.name]
  }

  function Wire(values: map<string, Value>): map<string, string> { map name | name in values :: ToWire(values[name]) }

  function Encoded(values: map<string, Value>): map<string, string>
    requires forall name <- values.Keys :: IsBytes(ToWire(values[name]))
  {
    map name | name in values :: Quote(ToWire(values[name]))
  }

  ghost predicate AllTexts(arguments: Arguments) {
    forall name <- arguments.Keys :: IsBytes(ToWire(arguments[name]))
  }

  ghost predicate MissesParameter(parameters: seq<Parameter>, arguments: Arguments) {
    exists parameter <- parameters :: parameter.required && !Given(arguments, parameter.name)
  }

  /** Upper case of ASCII letters, which HTTP methods consist of. */
  function Upper(s: string): (r: string)
    ensures |r| == |s|
    ensures forall i :: 0 <= i < |s| ==> r[i] as int == s[i] as int - if 'a' <= s[i] <= 'z' then 32 else 0
  {
    if s == [] then []
    else [if 'a' <= s[0] <= 'z' then s[0] - 'a' + 'A' else s[0]] + Upper(s[1..])
  }

  /** Without its trailing slashes. */
  function RStrip(s: string): (r: string)
    ensures r <= s && (forall i :: |r| <= i < |s| ==> s[i] == '/') && (r == [] || r[|r| - 1] != '/')
  {
    if s != [] && s[|s| - 1] == '/' then RStrip(s[..|s| - 1]) else s
  }

  lemma SuppliedOneMore(parameters: seq<Parameter>, parameter: Parameter, arguments: Arguments, location: Location)
    ensures Supplied(parameters + [parameter], arguments, location)
            == if parameter.location == location && Given(arguments, parameter.name)
               then Supplied(parameters, arguments, location)[parameter.name := arguments[parameter.name]]
               else Supplied(parameters, arguments, location)
  {
    assert forall p :: p in parameters + [parameter] <==> p in parameters || p == parameter;
  }

  lemma EncodedIsInert(values: map<string, Value>)
    requires forall name <- values.Keys :: IsBytes(ToWire(values[name]))
    ensures forall name <- Encoded(values).Keys :: Inert(Encoded(values)[name])
  {
    forall name <- values.Keys ensures Inert(Quote(ToWire(values[name]))) {
      QuoteIsInert(ToWire(values[name]));
    }
  }

  /** One sequential replace more in the path is one parameter more in the simultaneous substitution. */
  lemma PathOneMore(template: seq<Piece>, values: map<string, Value>, name: string, value: Value)
    requires NotNested(template) && Inert(name)
    requires forall n <- values.Keys :: IsBytes(ToWire(values[n]))
    requires IsBytes(ToWire(value)) && (name in values ==> values[name] == value)
    ensures Replace(Render(Fill(template, Encoded(values))), Placeholder(name), Quote(ToWire(value)))
            == Render(Fill(template, Encoded(values[name := value])))
  {
    hide Replace, Quote, Fill, Render;
    EncodedIsInert(values);
    FillKeepsNotNested(template, Encoded(values));
    ReplaceIsFill(Fill(template, Encoded(values)), name, Quote(ToWire(value)));
    FillTwice(template, Encoded(values), name, Quote(ToWire(value)));
    assert Encoded(values[name := value]) == Encoded(values)[name := Quote(ToWire(value))];
  }

  /** Characters that are in no argument and no placeholder occur in the path as often as in its template. */
  lemma {:induction false} OthersAreKept(template: seq<Piece>, values: map<string, string>, c: char)
    requires (forall name <- values.Keys :: c !in values[name]) && c !in "{}"
    requires forall piece <- template :: piece.Var? ==> c !in piece.name
    ensures multiset(Render(Fill(template, values)))[c] == multiset(Render(template))[c]
  {
    if template != [] {
      var first := template[0];
      assert first in template && forall piece <- template[1..] :: piece in template;
      OthersAreKept(template[1..], values, c);
      PieceKeepsOthers(first, values, c);
      hide RenderPiece, FillPiece;
    }
  }

  lemma PieceKeepsOthers(piece: Piece, values: map<string, string>, c: char)
    requires (forall name <- values.Keys :: c !in values[name]) && c !in "{}"
    requires piece.Var? ==> c !in piece.name
    ensures multiset(RenderPiece(FillPiece(piece, values)))[c] == multiset(RenderPiece(piece))[c]
  {
    if piece.Var? && piece.name in values {
      assert c !in Placeholder(piece.name);
      assert c !in multiset(Placeholder(piece.name)) && c !in multiset(values[piece.name]);
    }
  }

  /** Whatever the arguments, every delimiter occurs in the path as often as in the template: no argument
      opens a segment, a query or a fragment. */
  ghost predicate KeepsDelimiters(template: seq<Piece>, path: string) {
    forall c: char ::
      && !('a' <= c <= 'z' || 'A' <= c <= 'Z' || '0' <= c <= '9' || c in "_.-~%{}")
      && (forall piece <- template :: piece.Var? ==> c !in piece.name) ==>
        multiset(path)[c] == multiset(Render(template))[c]
  }

  lemma DelimitersAreKept(template: seq<Piece>, values: map<string, Value>)
    requires forall name <- values.Keys :: IsBytes(ToWire(values[name]))
    ensures KeepsDelimiters(template, Render(Fill(template, Encoded(values))))
  {
    hide Quote, Render, Fill, ToWire;
    forall c: char | Delimiter(c) && forall piece <- template :: piece.Var? ==> c !in piece.name
      ensures multiset(Render(Fill(template, Encoded(values))))[c] == multiset(Render(template))[c]
    {
      forall name <- values.Keys ensures c !in Quote(ToWire(values[name])) {
        NoDelimiterQuoted(ToWire(values[name]), c);
      }
      OthersAreKept(template, Encoded(values), c);
    }
  }

  // --- what is sent ---

  /** The text of an argument: booleans as JSON spells them, anything else as it is. */
  ghost predicate Spells(text: string, value: Value) {
    && (value.Bool? ==> text == if value.b then "true" else "false")
    && (value.Text? ==> text == value.s)
  }

  /** The caller gave a value, not null, for a parameter of this location. */
  ghost predicate Gives(parameters: seq<Parameter>, arguments: Arguments, location: Location, name: string) {
    && name in arguments && !arguments[name].Null?
    && exists parameter <- parameters :: parameter.name == name && parameter.location == location
  }

  /** The constants and what the caller gave, which comes first. */
  ghost predicate Overrides(sent: map<string, string>, constants: map<string, string>, parameters: seq<Parameter>,
                            arguments: Arguments, location: Location)
  {
    && (forall name :: name in sent <==> name in constants || Gives(parameters, arguments, location, name))
    && forall name <- sent.Keys ::
         if Gives(parameters, arguments, location, name) then Spells(sent[name], arguments[name])
         else sent[name] == constants[name]
  }

  lemma SuppliedOverrides(constants: map<string, string>, parameters: seq<Parameter>, arguments: Arguments,
                          location: Location)
    ensures Overrides(constants + Wire(Supplied(parameters, arguments, location)), constants, parameters, arguments,
                      location)
  {
    SuppliedExactly(parameters, arguments, location);
    hide Supplied, Gives, Given;
  }

  lemma SuppliedExactly(parameters: seq<Parameter>, arguments: Arguments, location: Location)
    ensures var supplied := Supplied(parameters, arguments, location);
            && (forall name :: name in supplied <==> Gives(parameters, arguments, location, name))
            && forall name <- supplied.Keys :: name in arguments && supplied[name] == arguments[name]
  {
  }

  ghost predicate Lacks(parameter: Parameter, arguments: Arguments) {
    parameter.required && (parameter.name in arguments ==> arguments[parameter.name].Null?)
  }

  /** The parameter at `i` is the first one that is required and not given. */
  ghost predicate IsFirstMissing(parameters: seq<Parameter>, arguments: Arguments, i: nat) {
    && i < |parameters| && Lacks(parameters[i], arguments)
    && forall j :: 0 <= j < i ==> !Lacks(parameters[j], arguments)
  }

  ghost function PathValues(parameters: seq<Parameter>, arguments: Arguments): (values: map<string, Value>)
    ensures values == Supplied(parameters, arguments, Path)
    ensures forall name <- values.Keys :: name in arguments && values[name] == arguments[name]
  {
    Supplied(parameters, arguments, Path)
  }

  lemma WireOneMore(constants: map<string, string>, values: map<string, Value>, name: string, value: Value)
    ensures constants + Wire(values[name := value]) == (constants + Wire(values))[name := ToWire(value)]
  {
    hide ToWire;
  }

  lemma MissesOneMore(parameters: seq<Parameter>, parameter: Parameter, arguments: Arguments)
    ensures MissesParameter(parameters + [parameter], arguments)
            <==> MissesParameter(parameters, arguments) || (parameter.required && !Given(arguments, parameter.name))
  {
    hide Given;
    assert parameter in parameters + [parameter];
    assert forall p :: p in parameters + [parameter] <==> p in parameters || p == parameter;
  }

  lemma MissesSome(parameters: seq<Parameter>, parameter: Parameter, arguments: Arguments)
    requires parameter in parameters && parameter.required && !Given(arguments, parameter.name)
    ensures MissesParameter(parameters, arguments)
  {
  }

  lemma NothingSupplied(arguments: Arguments)
    ensures forall location :: Supplied([], arguments, location) == map[]
    ensures Encoded(map[]) == map[] && (forall constants :: constants + Wire(map[]) == constants)
    ensures !MissesParameter([], arguments)
  {
  }

  /** What the parameters seen so far have made of path, query and headers. */
  ghost predicate IsSent(operation: Operation, seen: seq<Parameter>, arguments: Arguments,
                         constants: map<string, string>, path: string, query: map<string, string>,
                         headers: map<string, string>)
    requires AllTexts(arguments)
  {
    && path == Render(Fill(operation.path, Encoded(PathValues(seen, arguments))))
    && query == operation.fixedQuery + Wire(Supplied(seen, arguments, Query))
    && headers == constants + Wire(Supplied(seen, arguments, Header))
  }

  lemma NothingSent(operation: Operation, arguments: Arguments, constants: map<string, string>)
    requires AllTexts(arguments)
    ensures IsSent(operation, [], arguments, constants, Render(operation.path), operation.fixedQuery, constants)
    ensures !MissesParameter([], arguments)
  {
    hide Supplied, Encoded, Wire;
    NothingSupplied(arguments);
    FillNothing(operation.path);
  }

  lemma SentOneMore(operation: Operation, seen: seq<Parameter>, parameter: Parameter, arguments: Arguments,
                    constants: map<string, string>, path: string, query: map<string, string>,
                    headers: map<string, string>)
    requires NotNested(operation.path) && AllTexts(arguments) && (parameter.location.Path? ==> Inert(parameter.name))
    requires IsSent(operation, seen, arguments, constants, path, query, headers)
    ensures var more := seen + [parameter];
            if !Given(arguments, parameter.name) then
              IsSent(operation, more, arguments, constants, path, query, headers)
            else
              var text := ToWire(arguments[parameter.name]);
              match parameter.location
              case Path =>
                IsSent(operation, more, arguments, constants, Replace(path, Placeholder(parameter.name), Quote(text)),
                       query, headers)
              case Query =>
                IsSent(operation, more, arguments, constants, path, query[parameter.name := text], headers)
              case Header =>
                IsSent(operation, more, arguments, constants, path, query, headers[parameter.name := text])
  {
    hide Replace, Quote, Fill, Render, Supplied, ToWire, Encoded, Inert, Wire, NotNested, IsBytes;
    SuppliedOneMore(seen, parameter, arguments, Path);
    SuppliedOneMore(seen, parameter, arguments, Query);
    SuppliedOneMore(seen, parameter, arguments, Header);
    if Given(arguments, parameter.name) {
      var value := arguments[parameter.name];
      match parameter.location
      case Path => PathOneMore(operation.path, PathValues(seen, arguments), parameter.name, value);
      case Query => WireOneMore(operation.fixedQuery, Supplied(seen, arguments, Query), parameter.name, value);
      case Header => WireOneMore(constants, Supplied(seen, arguments, Header), parameter.name, value);
    }
  }

  lemma SentMeans(operation: Operation, arguments: Arguments, constants: map<string, string>, path: string,
                  query: map<string, string>, headers: map<string, string>)
    requires AllTexts(arguments)
    requires IsSent(operation, operation.parameters, arguments, constants, path, query, headers)
    ensures path == Render(Fill(operation.path, Encoded(PathValues(operation.parameters, arguments))))
    ensures query == operation.fixedQuery + Wire(Supplied(operation.parameters, arguments, Query))
    ensures headers == constants + Wire(Supplied(operation.parameters, arguments, Header))
    ensures KeepsDelimiters(operation.path, path)
    ensures Overrides(query, operation.fixedQuery, operation.parameters, arguments, Query)
    ensures Overrides(headers, constants, operation.parameters, arguments, Header)
  {
    hide KeepsDelimiters, Overrides, Supplied, Wire, Encoded, Render, Fill, ToWire;
    DelimitersAreKept(operation.path, PathValues(operation.parameters, arguments));
    SuppliedOverrides(operation.fixedQuery, operation.parameters, arguments, Query);
    SuppliedOverrides(constants, operation.parameters, arguments, Header);
  }

  /** The request, or what is missing first. The path is the simultaneous substitution of the encoded path
      arguments, which add no delimiter to it; query and headers are the constants, overridden by what the
      caller gave. */
  method BuildRequest(baseUrl: string, operation: Operation, arguments: Arguments, token: string) returns (built: Built)
    requires NotNested(operation.path) && AllTexts(arguments)
    requires forall parameter <- operation.parameters :: parameter.location == Path ==> Inert(parameter.name)
    ensures built.Ok? <==> && !MissesParameter(operation.parameters, arguments)
                           && (operation.bodyRequired ==> Given(arguments, "body"))
    ensures built.Err? && built.error.MissingParameter? <==>
              exists i: nat :: IsFirstMissing(operation.parameters, arguments, i)
    ensures built.Err? && built.error.MissingParameter? ==>
              exists i: nat :: && IsFirstMissing(operation.parameters, arguments, i)
                          && operation.parameters[i].name == built.error.name
    ensures built.Err? && built.error.MissingBody? ==>
              operation.bodyRequired && ("body" in arguments ==> arguments["body"].Null?)
    ensures built.Ok? ==>
              built.request == Request(
                Upper(operation.httpMethod),
                RStrip(baseUrl)
                + Render(Fill(operation.path, Encoded(Supplied(operation.parameters, arguments, Path)))),
                operation.fixedQuery + Wire(Supplied(operation.parameters, arguments, Query)),
                map["authorization" := "Bearer " + token, "accept" := "application/json"]
                + Wire(Supplied(operation.parameters, arguments, Header)),
                if operation.hasJsonBody && Given(arguments, "body") then Some(arguments["body"]) else None)
    ensures built.Ok? ==>
              && KeepsDelimiters(operation.path, built.request.url[|RStrip(baseUrl)|..])
              && Overrides(built.request.query, operation.fixedQuery, operation.parameters, arguments, Query)
              && Overrides(built.request.headers,
                           map["authorization" := "Bearer " + token, "accept" := "application/json"],
                           operation.parameters, arguments, Header)
  {
    hide Replace, Quote, Fill, Render, Supplied, ToWire, Encoded, Inert, Wire, MissesParameter, NotNested, RStrip,
         Upper, Overrides, KeepsDelimiters, Gives, Spells;
    var path := Render(operation.path);
    var query := operation.fixedQuery;
    var constants := map["authorization" := "Bearer " + token, "accept" := "application/json"];
    var headers := constants;
    NothingSent(operation, arguments, constants);
    hide IsSent;
    for i := 0 to |operation.parameters|
      invariant !MissesParameter(operation.parameters[..i], arguments)
      invariant forall j :: 0 <= j < i ==> !Lacks(operation.parameters[j], arguments)
      invariant IsSent(operation, operation.parameters[..i], arguments, constants, path, query, headers)
    {
      var parameter := operation.parameters[i];
      ghost var before := operation.parameters[..i];
      assert operation.parameters[..i + 1] == before + [parameter];
      MissesOneMore(before, parameter, arguments);
      SentOneMore(operation, before, parameter, arguments, constants, path, query, headers);
      if !Given(arguments, parameter.name) {
        if parameter.required {
          MissesSome(operation.parameters, parameter, arguments);
          assert IsFirstMissing(operation.parameters, arguments, i);
          return Err(MissingParameter(parameter.name));
        }
      } else {
        var value := arguments[parameter.name];
        match parameter.location
        case Path =>
          path := Replace(path, Placeholder(parameter.name), Quote(ToWire(value)));
        case Query =>
          query := query[parameter.name := ToWire(value)];
        case Header =>
          headers := headers[parameter.name := ToWire(value)];
      }
    }
    assert operation.parameters[..|operation.parameters|] == operation.parameters;
    if operation.bodyRequired && !Given(arguments, "body") {
      return Err(MissingBody);
    }
    var body := if operation.hasJsonBody && Given(arguments, "body") then Some(arguments["body"]) else None;
    SentMeans(operation, arguments, constants, path, query, headers);
    assert (RStrip(baseUrl) + path)[|RStrip(baseUrl)|..] == path;
    return Ok(Request(Upper(operation.httpMethod), RStrip(baseUrl) + path, query, headers, body));
  }

  // --- what the path means ---

  /** A sequence of replaces, one for each (name, encoded value). */
  function ReplaceInOrder(path: string, order: seq<string>, values: map<string, string>): string
    requires forall name <- order :: name in values
  {
    if order == [] then path
    else
      var n := |order| - 1;
      assert order[n] in order && forall name <- order[..n] :: name in order;
      Replace(ReplaceInOrder(path, order[..n], values), Placeholder(order[n]), values[order[n]])
  }

  /** Sequential replacing of encoded values is simultaneous substitution, so its result does not depend
      on the order of the parameters, nor on repeats among them. */
  lemma {:induction false} ReplacingIsSimultaneous(template: seq<Piece>, order: seq<string>,
                                                   values: map<string, string>)
    requires NotNested(template)
    requires forall name <- order :: name in values && Inert(name) && Inert(values[name])
    ensures ReplaceInOrder(Render(template), order, values)
            == Render(Fill(template, map name | name in order :: values[name]))
  {
    hide Replace, Render, Fill;
    if order == [] {
      FillNothing(template);
      assert (map name | name in order :: values[name]) == map[];
    } else {
      var n := |order| - 1;
      var init, last := order[..n], order[n];
      assert last in order && forall name :: name in order <==> name in init || name == last;
      ReplacingIsSimultaneous(template, init, values);
      var earlier := map name | name in init :: values[name];
      FillKeepsNotNested(template, earlier);
      ReplaceIsFill(Fill(template, earlier), last, values[last]);
      FillTwice(template, earlier, last, values[last]);
      assert (map name | name in order :: values[name]) == earlier[last := values[last]];
    }
  }

  /** The template whose segments are these pieces. */
  function FromSegments(segments: seq<Piece>): seq<Piece>
    requires segments != []
  {
    if |segments| == 1 then segments else [segments[0], Lit("/")] + FromSegments(segments[1..])
  }

  ghost predicate WholeSegments(segments: seq<Piece>) {
    NotNested(segments) && forall segment <- segments :: segment.Lit? ==> '/' !in segment.text
  }

  /** What a segment stands for: its own text, or the argument of its placeholder. */
  function Meaning(segment: Piece, arguments: map<string, string>): string {
    match segment
    case Lit(text) => text
    case Var(name) => if name in arguments then arguments[name] else Placeholder(name)
  }

  function QuoteAll(arguments: map<string, string>): map<string, string>
    requires forall name <- arguments.Keys :: IsBytes(arguments[name])
  {
    map name | name in arguments :: Quote(arguments[name])
  }

  /** What a segment reads in the built path. */
  function TextOf(segment: Piece, arguments: map<string, string>): string
    requires segment.Var? ==> segment.name in arguments && IsBytes(arguments[segment.name])
  {
    match segment
    case Lit(text) => text
    case Var(name) => Quote(arguments[name])
  }

  lemma SegmentText(segment: Piece, arguments: map<string, string>)
    requires WholeSegments([segment]) && (segment.Var? ==> segment.name in arguments)
    requires forall name <- arguments.Keys :: IsBytes(arguments[name])
    ensures var text := RenderPiece(FillPiece(segment, QuoteAll(arguments)));
            text == TextOf(segment, arguments) && '/' !in text
  {
    assert segment in [segment];
    if segment.Var? {
      QuoteIsInert(arguments[segment.name]);
    }
  }

  lemma {:induction false} RenderConcat(a: seq<Piece>, b: seq<Piece>, values: map<string, string>)
    ensures Render(Fill(a + b, values)) == Render(Fill(a, values)) + Render(Fill(b, values))
  {
    if a == [] {
      assert a + b == b;
    } else {
      assert (a + b)[1..] == a[1..] + b;
      RenderConcat(a[1..], b, values);
      assert Fill(a + b, values) == [FillPiece(a[0], values)] + Fill(a[1..] + b, values);
    }
  }

  ghost predicate CanFill(segments: seq<Piece>, arguments: map<string, string>) {
    && segments != [] && WholeSegments(segments)
    && (forall name <- arguments.Keys :: IsBytes(arguments[name]))
    && (forall segment <- segments :: segment.Var? ==> segment.name in arguments)
  }

  function BuiltPath(segments: seq<Piece>, arguments: map<string, string>): string
    requires segments != [] && forall name <- arguments.Keys :: IsBytes(arguments[name])
  {
    Render(Fill(FromSegments(segments), QuoteAll(arguments)))
  }

  lemma CanFillRest(segments: seq<Piece>, arguments: map<string, string>)
    requires CanFill(segments, arguments)
    ensures WholeSegments([segments[0]]) && segments[0] in segments
    ensures 1 < |segments| ==> CanFill(segments[1..], arguments)
  {
    assert segments[0] in segments && forall segment <- segments[1..] :: segment in segments;
  }

  lemma FillOne(first: Piece, values: map<string, string>)
    ensures Render(Fill([first], values)) == RenderPiece(FillPiece(first, values))
  {
    assert Fill([first], values) == [FillPiece(first, values)] + Fill([first][1..], values);
    assert Fill([first], values)[1..] == [];
  }

  lemma FillOneSlash(first: Piece, values: map<string, string>)
    ensures Render(Fill([first, Lit("/")], values)) == RenderPiece(FillPiece(first, values)) + ['/']
  {
    assert [first, Lit("/")][1..] == [Lit("/")] && [Lit("/")][1..] == [];
    assert Fill([Lit("/")], values) == [Lit("/")];
    assert Fill([first, Lit("/")], values) == [FillPiece(first, values), Lit("/")];
    assert [FillPiece(first, values), Lit("/")][1..] == [Lit("/")];
    assert Render([Lit("/")]) == "/" + [];
  }

  lemma FillSlash(first: Piece, rest: seq<Piece>, values: map<string, string>)
    ensures Render(Fill([first, Lit("/")] + rest, values))
            == RenderPiece(FillPiece(first, values)) + ['/'] + Render(Fill(rest, values))
  {
    RenderConcat([first, Lit("/")], rest, values);
    FillOneSlash(first, values);
  }

  lemma BuiltPathStep(segments: seq<Piece>, arguments: map<string, string>)
    requires CanFill(segments, arguments)
    ensures segments[0].Var? ==> segments[0].name in arguments
    ensures var text := TextOf(segments[0], arguments);
            && '/' !in text
            && BuiltPath(segments, arguments)
               == if |segments| == 1 then text else text + ['/'] + BuiltPath(segments[1..], arguments)
  {
    hide Quote, QuoteAll, Render, Fill, FillPiece;
    CanFillRest(segments, arguments);
    SegmentText(segments[0], arguments);
    if |segments| == 1 {
      assert FromSegments(segments) == [segments[0]];
      FillOne(segments[0], QuoteAll(arguments));
    } else {
      FillSlash(segments[0], FromSegments(segments[1..]), QuoteAll(arguments));
    }
  }

  /** Where every placeholder fills a whole segment, splitting the path at '/' gives the segments' texts. */
  lemma {:induction false} PathSegments(segments: seq<Piece>, arguments: map<string, string>)
    requires CanFill(segments, arguments)
    ensures var parts := PayloadPaths.Split(BuiltPath(segments, arguments), '/');
            && |parts| == |segments|
            && forall i :: 0 <= i < |segments| ==>
                 (segments[i].Var? ==> segments[i].name in arguments) && parts[i] == TextOf(segments[i], arguments)
    decreases |segments|
  {
    hide BuiltPath, TextOf, PayloadPaths.Split;
    BuiltPathStep(segments, arguments);
    var text := TextOf(segments[0], arguments);
    PayloadPaths.SplitWithoutSeparator(text, '/');
    if 1 < |segments| {
      CanFillRest(segments, arguments);
      hide CanFill;
      PathSegments(segments[1..], arguments);
      PayloadPaths.SplitAtSeparator(text, '/', BuiltPath(segments[1..], arguments));
    }
  }

  /** Path building can be undone: where every placeholder fills a whole segment, splitting the path at
      '/' and percent-decoding gives back the arguments, and the literal segments as they were. */
  lemma PathCanBeUndone(segments: seq<Piece>, arguments: map<string, string>)
    requires CanFill(segments, arguments)
    ensures var parts := PayloadPaths.Split(BuiltPath(segments, arguments), '/');
            && |parts| == |segments|
            && forall i :: 0 <= i < |segments| ==>
                 Meaning(segments[i], arguments) == if segments[i].Var? then Unquote(parts[i]) else parts[i]
  {
    hide BuiltPath, Quote, Unquote, PayloadPaths.Split;
    PathSegments(segments, arguments);
    forall i | 0 <= i < |segments| && segments[i].Var?
      ensures Unquote(Quote(arguments[segments[i].name])) == arguments[segments[i].name]
    {
      UnquoteQuote(arguments[segments[i].name]);
    }
  }

  // --- dot segments (section 5.2.4 of RFC 3986) ---

  predicate IsDot(segment: string) { segment == "." || segment == ".." }

  /** Removes the dot segments from the segments after a path's first slash, `output` being those that are
      done. A dot segment at the end leaves a trailing slash. */
  function RemoveDots(input: seq<string>, output: seq<string>): seq<string> {
    if input == [] then output
    else if IsDot(input[0]) then
      var kept := if input[0] == ".." && output != [] then output[..|output| - 1] else output;
      RemoveDots(input[1..], if |input| == 1 then kept + [""] else kept)
    else RemoveDots(input[1..], output + [input[0]])
  }

  lemma {:induction false} NoDotsNoChange(input: seq<string>, output: seq<string>)
    requires forall segment <- input :: !IsDot(segment)
    ensures RemoveDots(input, output) == output + input
  {
    if input == [] {
      assert output + input == output;
    } else {
      assert input[0] in input && forall segment <- input[1..] :: segment in input;
      NoDotsNoChange(input[1..], output + [input[0]]);
      assert output + [input[0]] + input[1..] == output + input;
    }
  }

  lemma {:induction false} NoDotsAreLeft(input: seq<string>, output: seq<string>)
    requires forall segment <- output :: !IsDot(segment)
    ensures forall segment <- RemoveDots(input, output) :: !IsDot(segment)
  {
    if input != [] {
      if IsDot(input[0]) {
        var kept := if input[0] == ".." && output != [] then output[..|output| - 1] else output;
        assert forall segment <- kept :: segment in output;
        NoDotsAreLeft(input[1..], if |input| == 1 then kept + [""] else kept);
      } else {
        NoDotsAreLeft(input[1..], output + [input[0]]);
      }
    }
  }

  lemma QuoteKeepsDots(s: string)
    requires IsBytes(s)
    ensures IsDot(Quote(s)) <==> IsDot(s)
  {
    assert Quote(".") == "." by { assert "."[1..] == ""; }
    assert Quote("..") == ".." by { assert ".."[1..] == "."; }
    assert Unquote(".") == "." by { assert "."[1..] == ""; }
    assert Unquote("..") == ".." by { assert ".."[1..] == "."; }
    UnquoteQuote(s);
  }

  /** Encoding leaves dots alone, so whoever normalizes the path can change which resource it names: dot
      removal leaves a built path as it is exactly if no literal segment and no argument after the first
      slash is "." or "..". */
  lemma DotRemovalKeepsPathExactlyIf(segments: seq<Piece>, arguments: map<string, string>)
    requires CanFill(segments, arguments) && segments[0] == Lit("")
    ensures var parts := PayloadPaths.Split(BuiltPath(segments, arguments), '/');
            && |parts| == |segments|
            && (RemoveDots(parts[1..], []) == parts[1..]
                <==> forall i :: 1 <= i < |segments| ==> !IsDot(Meaning(segments[i], arguments)))
  {
    hide BuiltPath, Quote, PayloadPaths.Split, IsDot, RemoveDots, IsBytes;
    var parts := PayloadPaths.Split(BuiltPath(segments, arguments), '/');
    PathSegments(segments, arguments);
    forall i | 1 <= i < |segments| ensures IsDot(parts[i]) <==> IsDot(Meaning(segments[i], arguments)) {
      if segments[i].Var? { QuoteKeepsDots(arguments[segments[i].name]); }
    }
    var rest := parts[1..];
    assert forall i :: 1 <= i < |segments| ==> rest[i - 1] == parts[i];
    NoDotsAreLeft(rest, []);
    if forall segment <- rest :: !IsDot(segment) {
      NoDotsNoChange(rest, []);
    } else {
      var dot :| dot in rest && IsDot(dot);
    }
  }

  const PRODUCT_PATH := [Lit(""), Lit("products"), Var("id")]
  const TWO_DOTS: map<string, string> := map["id" := ".."]

  lemma ProductPathCanBeFilled()
    ensures CanFill(PRODUCT_PATH, TWO_DOTS)
  {
  }

  lemma TwoDotsAreKept()
    ensures Quote("..") == ".."
  {
    assert ".."[1..] == "." && "."[1..] == "";
  }

  lemma LastTwoDotsRemoved()
    ensures RemoveDots(["products", ".."], []) == [""]
  {
    assert ["products", ".."][1..] == [".."] && [".."][1..] == [];
    assert [] + ["products"] == ["products"] && ["products"][..0] == [];
  }

  /** The template /products/{id} with an argument of two dots: its path loses "products" as well. */
  lemma DotArgumentTakesItsParentAway()
    ensures CanFill(PRODUCT_PATH, TWO_DOTS)
    ensures PayloadPaths.Split(BuiltPath(PRODUCT_PATH, TWO_DOTS), '/') == ["", "products", ".."]
    ensures RemoveDots(["products", ".."], []) == [""]
  {
    ProductPathCanBeFilled();
    TwoDotsAreKept();
    LastTwoDotsRemoved();
    hide Quote, BuiltPath, PayloadPaths.Split, RemoveDots, CanFill;
    PathSegments(PRODUCT_PATH, TWO_DOTS);
  }
}
