/** The description tail and the success hint rendered for an operation that is a step of playbooks,
    their sizes, and the caps that the boot lint does and does not check. */
module HintSizes {
  import opened Wrappers
  import opened Playbooks

  const DESCRIPTION_TAIL_MAX_CHARS := 120
  const ENVELOPE_HINT_MAX_CHARS := 200

  // --- texts ---

  function Decimal(n: nat): string {
    var digit := ["0123456789"[n % 10]];
    if n < 10 then digit else Decimal(n / 10) + digit
  }

  /** The number that a row of digits stands for. */
  function NumberOf(digits: string): int {
    if digits == "" then 0
    else 10 * NumberOf(digits[..|digits| - 1]) + (digits[|digits| - 1] as int - '0' as int)
  }

  /** The text stands for n, in digits and without a leading zero. */
  ghost predicate Writes(text: string, n: nat) {
    && text != "" && (forall c <- text :: '0' <= c <= '9') && NumberOf(text) == n
    && (text[0] == '0' ==> text == "0")
  }

  lemma {:induction false} DecimalWrites(n: nat)
    ensures Writes(Decimal(n), n)
  {
    var digit := "0123456789"[n % 10];
    assert digit as int == '0' as int + n % 10;
    assert NumberOf("") == 0;
    if n < 10 {
      assert Decimal(n) == [digit] && [digit][..0] == "";
    } else {
      DecimalWrites(n / 10);
      var front := Decimal(n / 10);
      assert Decimal(n) == front + [digit];
      assert (front + [digit])[..|front|] == front;
      assert NumberOf("0") == 0 by { assert "0"[..0] == ""; }
    }
  }

  function Label(ref: StepRef): string { Decimal(ref.index + 1) + "/" + Decimal(|ref.playbook.steps|) }

  function Join(parts: seq<string>, separator: string): string {
    if parts == [] then ""
    else if |parts| == 1 then parts[0]
    else Join(parts[..|parts| - 1], separator) + separator + parts[|parts| - 1]
  }

  function Quoted(names: seq<string>): seq<string> {
    if names == [] then [] else Quoted(names[..|names| - 1]) + ["\"" + names[|names| - 1] + "\""]
  }

  function PlaybookNames(refs: seq<StepRef>): seq<string> {
    if refs == [] then [] else PlaybookNames(refs[..|refs| - 1]) + [refs[|refs| - 1].playbook.name]
  }

  ghost predicate AreNames(names: seq<string>, refs: seq<StepRef>) {
    |names| == |refs| && forall i :: 0 <= i < |refs| ==> names[i] == refs[i].playbook.name
  }

  lemma {:induction false} NamesInOrder(refs: seq<StepRef>)
    ensures forall names :: names == PlaybookNames(refs) <==> AreNames(names, refs)
  {
    if refs != [] {
      var n := |refs| - 1;
      NamesInOrder(refs[..n]);
      assert AreNames(PlaybookNames(refs[..n]), refs[..n]);
    }
    assert AreNames(PlaybookNames(refs), refs);
  }

  /** The pointer appended to an operation's description: the step of the only chain, or all chains' names. */
  function DescriptionTail(refs: seq<StepRef>): string {
    if refs == [] then ""
    else if |refs| == 1 then
      "Step " + Decimal(refs[0].index + 1) + " of " + Decimal(|refs[0].playbook.steps|) + " in playbook \""
      + refs[0].playbook.name + "\" \U{2014} call get_playbook for the full chain."
    else
      "A step in playbooks " + Join(Quoted(PlaybookNames(refs)), ", ")
      + " \U{2014} call get_playbook for the full chain."
  }

  /** In one chain the tail says which step of how many this is, and of which chain. */
  lemma OneChainTail(ref: StepRef) returns (number: string, total: string)
    ensures Writes(number, ref.index + 1) && Writes(total, |ref.playbook.steps|)
    ensures DescriptionTail([ref])
            == "Step " + number + " of " + total + " in playbook \"" + ref.playbook.name
               + "\" \U{2014} call get_playbook for the full chain."
  {
    number, total := Decimal(ref.index + 1), Decimal(|ref.playbook.steps|);
    DecimalWrites(ref.index + 1);
    DecimalWrites(|ref.playbook.steps|);
  }

  /** The names in order, quoted and separated by commas. */
  function NameList(refs: seq<StepRef>): string
    requires refs != []
  {
    var name := "\"" + refs[|refs| - 1].playbook.name + "\"";
    if |refs| == 1 then name else NameList(refs[..|refs| - 1]) + ", " + name
  }

  lemma {:induction false} JoinIsListed(refs: seq<StepRef>)
    requires refs != []
    ensures Join(Quoted(PlaybookNames(refs)), ", ") == NameList(refs)
  {
    var n := |refs| - 1;
    var init, names := refs[..n], PlaybookNames(refs);
    assert names[..|names| - 1] == PlaybookNames(init);
    var quoted := Quoted(names);
    assert quoted[..|quoted| - 1] == Quoted(PlaybookNames(init));
    if n == 0 {
      assert Quoted([]) == [] && PlaybookNames([]) == [];
    } else {
      JoinIsListed(init);
    }
  }

  /** In several it lists all of them. */
  lemma SeveralChainsTail(refs: seq<StepRef>)
    requires 2 <= |refs|
    ensures DescriptionTail(refs)
            == "A step in playbooks " + NameList(refs) + " \U{2014} call get_playbook for the full chain."
  {
    JoinIsListed(refs);
  }

  /** The steps after which chain work is left. */
  function Pending(refs: seq<StepRef>): seq<StepRef>
    requires forall ref <- refs :: ref.index < |ref.playbook.steps|
  {
    if refs == [] then [] else
      var last := refs[|refs| - 1];
      assert last in refs && forall ref <- refs[..|refs| - 1] :: ref in refs;
      var earlier := Pending(refs[..|refs| - 1]);
      if IsFinal(last) then earlier else earlier + [last]
  }

  function HexDigit(n: nat): char
    requires n < 16
  {
    "0123456789abcdef"[n]
  }

  /** One character as a JSON string shows it when only the mandatory escapes are made. */
  function EscapeChar(c: char): string {
    if c == '\"' then "\\\""
    else if c == '\\' then "\\\\"
    else if c == '\n' then "\\n"
    else if c == '\r' then "\\r"
    else if c == '\t' then "\\t"
    else if c as int == 8 then "\\b"
    else if c as int == 12 then "\\f"
    else if c as int < 32 then "\\u00" + [HexDigit(c as int / 16), HexDigit(c as int % 16)]
    else [c]
  }

  function Escape(s: string): string {
    if s == [] then [] else EscapeChar(s[0]) + Escape(s[1..])
  }

  lemma {:induction false} EscapeConcat(a: string, b: string)
    ensures Escape(a + b) == Escape(a) + Escape(b)
  {
    hide EscapeChar;
    if a == [] {
      assert a + b == b;
    } else {
      assert (a + b)[1..] == a[1..] + b;
      EscapeConcat(a[1..], b);
    }
  }

  /** The characters that two characters stand for. */
  predicate EscapedInTwo(c: char) {
    c == '\"' || c == '\\' || c == '\n' || c == '\r' || c == '\t' || c as int == 8 || c as int == 12
  }

  /** The control characters that six characters stand for. */
  predicate EscapedInSix(c: char) { c as int < 32 && !EscapedInTwo(c) }

  ghost function PlacesOf(s: string, kind: char -> bool): set<nat> { set i: nat | i < |s| && kind(s[i]) }

  lemma PlacesOneMore(s: string, c: char, kind: char -> bool)
    ensures |PlacesOf(s + [c], kind)| == |PlacesOf(s, kind)| + if kind(c) then 1 else 0
  {
    assert |s| !in PlacesOf(s, kind);
    assert PlacesOf(s + [c], kind) == if kind(c) then PlacesOf(s, kind) + {|s|} else PlacesOf(s, kind);
  }

  /** What escaping adds: one character for each of the former, five for each of the latter. */
  lemma {:induction false} EscapedLength(s: string)
    ensures |Escape(s)| == |s| + |PlacesOf(s, EscapedInTwo)| + 5 * |PlacesOf(s, EscapedInSix)|
  {
    if s == [] {
      assert PlacesOf(s, EscapedInTwo) == {} && PlacesOf(s, EscapedInSix) == {};
    } else {
      hide Escape, PlacesOf;
      var init, last := s[..|s| - 1], s[|s| - 1];
      EscapedLength(init);
      assert s == init + [last];
      EscapeConcat(init, [last]);
      EscapeOne(last);
      PlacesOneMore(init, last, EscapedInTwo);
      PlacesOneMore(init, last, EscapedInSix);
    }
  }

  lemma EscapeOne(c: char)
    ensures |Escape([c])| == if EscapedInTwo(c) then 2 else if c as int < 32 then 6 else 1
  {
    assert Escape([c][1..]) == [];
  }

  predicate NeedsNoEscape(s: string) {
    forall c <- s :: c != '\"' && c != '\\' && 32 <= c as int
  }

  function JsonString(s: string): string { "\"" + Escape(s) + "\"" }

  function JsonStrings(names: seq<string>): seq<string> {
    if names == [] then [] else JsonStrings(names[..|names| - 1]) + [JsonString(names[|names| - 1])]
  }

  /** The compact JSON of the success hint for an operation in exactly one chain. */
  function SpecificSuccessJson(ref: StepRef): string
    requires ref.index < |ref.playbook.steps|
  {
    "{\"name\":" + JsonString(ref.playbook.name)
    + ",\"step\":" + JsonString(Label(ref))
    + ",\"next\":[" + Join(JsonStrings(NextOperations(ref)), ",") + "]"
    + IncompleteAloneJson(StepOf(ref).incompleteAlone)
    + ",\"runbook\":" + JsonString("get_playbook(\"" + ref.playbook.name + "\")") + "}"
  }

  function IncompleteAloneJson(incompleteAlone: Option<string>): string {
    if incompleteAlone.None? || incompleteAlone.value == "" then ""
    else ",\"incomplete_alone\":" + JsonString(incompleteAlone.value)
  }

  /** The compact JSON of the success hint for an operation in several chains, given those with work left. */
  function MergedSuccessJson(pending: seq<StepRef>): string {
    "{\"in\":[" + Join(JsonStrings(PlaybookNames(pending)), ",") + MergedHintEnd()
  }

  function MergedHintEnd(): string {
    "],\"step_depends_on_chain\":true,\"runbook\":\"get_playbook(<the chain you are in, from `in`>)\"}"
  }

  lemma MergedHintEndLength()
    ensures |MergedHintEnd()| == 91
  {
  }

  /** The success hint; none if no chain work is left. */
  function SuccessJson(refs: seq<StepRef>): string
    requires forall ref <- refs :: ref.index < |ref.playbook.steps|
  {
    var pending := Pending(refs);
    if pending == [] then "" else if |refs| == 1 then SpecificSuccessJson(refs[0]) else MergedSuccessJson(pending)
  }

  function HintSize(refs: seq<StepRef>): nat
    requires forall ref <- refs :: ref.index < |ref.playbook.steps|
  {
    |SuccessJson(refs)|
  }

  // --- the boot lints that bear on the merged hint ---

  /** Every step's specific hint fits, as each file is checked for on its own. */
  ghost predicate HintsFit(playbook: Playbook) {
    forall i: nat :: i < |playbook.steps| ==> HintSize([StepRef(playbook, i)]) <= ENVELOPE_HINT_MAX_CHARS
  }

  ghost predicate TailsFit(playbooks: seq<Playbook>) {
    forall operationId :: |DescriptionTail(Scan(playbooks, operationId))| <= DESCRIPTION_TAIL_MAX_CHARS
  }

  /** The playbooks load, each is a sound chain, and the sizes that the lint looks at are within their caps. */
  ghost predicate Accepted(playbooks: seq<Playbook>) {
    && DistinctNames(playbooks)
    && (forall playbook <- playbooks :: IsSound(playbook) && HintsFit(playbook))
    && TailsFit(playbooks)
  }

  // --- exact sizes ---

  function TotalLength(parts: seq<string>): nat {
    if parts == [] then 0 else TotalLength(parts[..|parts| - 1]) + |parts[|parts| - 1]|
  }

  /** What the names take up in the description tail, each with two quotes and a separator. */
  function PlainSize(names: seq<string>): nat {
    if names == [] then 0 else PlainSize(names[..|names| - 1]) + |names[|names| - 1]| + 4
  }

  /** What the names take up in the merged hint, each with two quotes and a comma. */
  function EscapedSize(names: seq<string>): nat {
    if names == [] then 0 else EscapedSize(names[..|names| - 1]) + |Escape(names[|names| - 1])| + 3
  }

  /** Characters that escaping adds to the names. */
  function EscapeOverhead(names: seq<string>): int {
    EscapedSize(names) + |names| - PlainSize(names)
  }

  lemma {:induction false} JoinLength(parts: seq<string>, separator: string)
    ensures |Join(parts, separator)| == TotalLength(parts) + (if parts == [] then 0 else (|parts| - 1) * |separator|)
  {
    if |parts| > 1 {
      var n := |parts| - 1;
      JoinLength(parts[..n], separator);
      assert n * |separator| == (n - 1) * |separator| + |separator|;
    }
  }

  lemma {:induction false} QuotedLength(names: seq<string>)
    ensures |Quoted(names)| == |names| && TotalLength(Quoted(names)) == PlainSize(names) - 2 * |names|
  {
    if names != [] {
      var n := |names| - 1;
      QuotedLength(names[..n]);
      assert Quoted(names)[..n] == Quoted(names[..n]);
    }
  }

  lemma {:induction false} JsonLength(names: seq<string>)
    ensures |JsonStrings(names)| == |names| && TotalLength(JsonStrings(names)) == EscapedSize(names) - |names|
  {
    if names != [] {
      hide Escape;
      var n := |names| - 1;
      JsonLength(names[..n]);
      assert JsonStrings(names)[..n] == JsonStrings(names[..n]);
    }
  }

  lemma {:induction false} NamesCount(refs: seq<StepRef>)
    ensures |PlaybookNames(refs)| == |refs|
  {
    if refs != [] { NamesCount(refs[..|refs| - 1]); }
  }

  /** The tail of an operation in several chains is within its cap exactly if the names are short enough. */
  lemma TailSize(refs: seq<StepRef>)
    requires 2 <= |refs|
    ensures |DescriptionTail(refs)| == 58 + PlainSize(PlaybookNames(refs))
    ensures |DescriptionTail(refs)| <= 120 <==> PlainSize(PlaybookNames(refs)) <= 62
  {
    hide Join, Quoted, TotalLength, PlaybookNames, PlainSize;
    NamesCount(refs);
    QuotedLength(PlaybookNames(refs));
    JoinLength(Quoted(PlaybookNames(refs)), ", ");
  }

  /** The size of the merged hint, which the lint does not measure. */
  lemma MergedHintSize(refs: seq<StepRef>, pending: seq<StepRef>)
    requires 2 <= |refs| && forall ref <- refs :: ref.index < |ref.playbook.steps|
    requires pending == Pending(refs) != []
    ensures HintSize(refs) == 97 + EscapedSize(PlaybookNames(pending))
  {
    hide Join, JsonStrings, TotalLength, PlaybookNames, EscapedSize, Pending, MergedHintEnd, SpecificSuccessJson;
    MergedHintEndLength();
    NamesCount(pending);
    JsonLength(PlaybookNames(pending));
    JoinLength(JsonStrings(PlaybookNames(pending)), ",");
  }

  /** It is within the cap exactly if the escaped names of the chains with work left are short enough. */
  lemma MergedHintFits(refs: seq<StepRef>, pending: seq<StepRef>)
    requires 2 <= |refs| && forall ref <- refs :: ref.index < |ref.playbook.steps|
    requires pending == Pending(refs) != []
    ensures HintSize(refs) <= 200 <==> EscapedSize(PlaybookNames(pending)) <= 103
  {
    hide HintSize, Pending, PlaybookNames, EscapedSize;
    MergedHintSize(refs, pending);
  }

  // --- what the tail's cap says about the merged hint ---

  lemma NamesOneMore(refs: seq<StepRef>, ref: StepRef)
    ensures PlaybookNames(refs + [ref]) == PlaybookNames(refs) + [ref.playbook.name]
    ensures PlainSize(PlaybookNames(refs + [ref])) == PlainSize(PlaybookNames(refs)) + |ref.playbook.name| + 4
  {
    assert (refs + [ref])[..|refs|] == refs;
    assert (PlaybookNames(refs) + [ref.playbook.name])[..|PlaybookNames(refs)|] == PlaybookNames(refs);
  }

  lemma {:induction false} PendingIsShorter(refs: seq<StepRef>)
    requires forall ref <- refs :: ref.index < |ref.playbook.steps|
    ensures |Pending(refs)| <= |refs|
    ensures PlainSize(PlaybookNames(Pending(refs))) + 4 * (|refs| - |Pending(refs)|) <= PlainSize(PlaybookNames(refs))
    ensures forall ref <- Pending(refs) :: ref in refs
  {
    hide PlaybookNames, PlainSize;
    if refs != [] {
      var n := |refs| - 1;
      var init, last := refs[..n], refs[n];
      assert refs == init + [last];
      PendingIsShorter(init);
      NamesOneMore(init, last);
      if !IsFinal(last) {
        NamesOneMore(Pending(init), last);
      }
    }
  }

  lemma {:induction false} NamesOf(refs: seq<StepRef>, name: string)
    ensures name in PlaybookNames(refs) <==> exists ref <- refs :: ref.playbook.name == name
  {
    if refs != [] {
      var n := |refs| - 1;
      NamesOf(refs[..n], name);
      assert forall ref :: ref in refs <==> ref in refs[..n] || ref == refs[n];
    }
  }

  /** A tail within its cap keeps the merged hint within its own, up to 43 characters of JSON escaping. */
  lemma TailCapCoversHint(refs: seq<StepRef>)
    requires 2 <= |refs| && forall ref <- refs :: ref.index < |ref.playbook.steps|
    requires |DescriptionTail(refs)| <= 120
    requires EscapeOverhead(PlaybookNames(Pending(refs))) <= 43
    ensures HintSize(refs) <= 200
  {
    hide PlaybookNames, Pending, EscapedSize, PlainSize, DescriptionTail, MergedSuccessJson;
    if Pending(refs) != [] {
      TailSize(refs);
      MergedHintSize(refs, Pending(refs));
      PendingIsShorter(refs);
      NamesCount(Pending(refs));
    }
  }

  lemma PlainChar(c: char)
    requires c != '\"' && c != '\\' && 32 <= c as int
    ensures EscapeChar(c) == [c]
  {
  }

  lemma {:induction false} EscapeNothing(s: string)
    requires NeedsNoEscape(s)
    ensures Escape(s) == s
  {
    if s != [] {
      hide EscapeChar;
      assert s[0] in s && forall c <- s[1..] :: c in s;
      EscapeNothing(s[1..]);
      PlainChar(s[0]);
      assert [s[0]] + s[1..] == s;
    }
  }

  lemma {:induction false} PlainNamesHaveNoOverhead(names: seq<string>)
    requires forall name <- names :: NeedsNoEscape(name)
    ensures EscapeOverhead(names) == 0
  {
    if names != [] {
      hide Escape;
      var n := |names| - 1;
      assert names[n] in names && forall name <- names[..n] :: name in names;
      PlainNamesHaveNoOverhead(names[..n]);
      EscapeNothing(names[n]);
    }
  }

  /** For names needing no JSON escaping the cap on the tail subsumes the one on the merged hint, which is
      the reason given for not checking the hint. */
  lemma TailCapSubsumesHintCap(refs: seq<StepRef>)
    requires forall ref <- refs :: ref.index < |ref.playbook.steps| && NeedsNoEscape(ref.playbook.name)
    requires 2 <= |refs| && |DescriptionTail(refs)| <= 120
    ensures HintSize(refs) <= 200
  {
    hide PlaybookNames, Pending, EscapeOverhead, DescriptionTail, MergedSuccessJson;
    PendingIsShorter(refs);
    forall name <- PlaybookNames(Pending(refs)) ensures NeedsNoEscape(name) {
      NamesOf(Pending(refs), name);
    }
    PlainNamesHaveNoOverhead(PlaybookNames(Pending(refs)));
    TailCapCoversHint(refs);
  }

  // --- and what it does not say ---

  function StepsOf(playbooks: seq<Playbook>, operationId: string): (refs: seq<StepRef>)
    ensures forall ref <- refs :: ref.index < |ref.playbook.steps|
  {
    assert forall ref <- Scan(playbooks, operationId) :: IsStep(ref) by {
      forall ref <- Scan(playbooks, operationId) ensures IsStep(ref) {
        ScanFindsExactlyTheSteps(playbooks, operationId, ref);
      }
    }
    Scan(playbooks, operationId)
  }

  /** In every accepted set of playbooks whose names JSON lengthens by at most `overhead` characters, the
      merged hint of every operation fits although nothing checks it. */
  ghost predicate HintNeedsNoCheck(overhead: int) {
    forall playbooks, operationId ::
      var refs := StepsOf(playbooks, operationId);
      Accepted(playbooks) && 2 <= |refs| && EscapeOverhead(PlaybookNames(Pending(refs))) <= overhead
      ==> HintSize(refs) <= 200
  }

  /** The check of the merged hint may be left out exactly up to an overhead of 43 characters. */
  lemma CheckIsDispensableUpTo43(overhead: int)
    ensures HintNeedsNoCheck(overhead) <==> overhead <= 43
  {
    hide Pending, PlaybookNames, DescriptionTail, HintSize, EscapeOverhead, IsSound, Scan;
    if overhead <= 43 {
      forall playbooks, operationId |
        var refs := StepsOf(playbooks, operationId);
        Accepted(playbooks) && 2 <= |refs| && EscapeOverhead(PlaybookNames(Pending(refs))) <= overhead
        ensures HintSize(StepsOf(playbooks, operationId)) <= 200
      {
        TailCapCoversHint(StepsOf(playbooks, operationId));
      }
    } else {
      var playbooks := QuotedNamesOverrunTheHint();
    }
  }

  function Repeat(c: char, n: nat): string { if n == 0 then "" else [c] + Repeat(c, n - 1) }

  lemma {:induction false} EscapeOfQuotes(n: nat)
    ensures |Repeat('\"', n)| == n && |Escape(Repeat('\"', n))| == 2 * n
  {
    if n != 0 {
      EscapeOfQuotes(n - 1);
      assert Repeat('\"', n)[1..] == Repeat('\"', n - 1);
    }
  }

  /** A chain of two steps, the first of which is followed by the second. */
  function Chain(name: string): Playbook {
    Playbook(name, "a", [PlaybookStep("a", [], None, None), PlaybookStep("b", [], None, None)])
  }

  lemma ChainIsSound(name: string)
    ensures IsSound(Chain(name))
  {
    var chain := Chain(name);
    assert chain.steps[0] in chain.steps;
    assert NextOperations(StepRef(chain, 0)) == ["b"] && Follows(chain, 0, 1);
    assert IsPath(chain, [0]) && [0][|[0]| - 1] == 0;
    assert IsPath(chain, [0, 1]) && [0, 1][|[0, 1]| - 1] == 1;
  }

  lemma EscapeOneQuote()
    ensures Escape("\"") == "\\\""
  {
    assert Escape("\""[1..]) == [];
  }

  lemma RunbookLength(name: string)
    ensures |JsonString("get_playbook(\"" + name + "\")")| == |Escape(name)| + 20
  {
    RunbookIsPlain();
    EscapeOneQuote();
    EscapeOfFive("get_playbook(", "\"", name, "\"", ")");
    hide Escape;
    assert "get_playbook(\"" + name + "\")" == "get_playbook(" + "\"" + name + "\"" + ")";
  }

  lemma RunbookIsPlain()
    ensures Escape("get_playbook(") == "get_playbook(" && Escape(")") == ")"
  {
    hide Escape;
    EscapeNothing(")");
    EscapeNothing("get_playbook(");
  }

  lemma EscapeOfFive(a: string, b: string, c: string, d: string, e: string)
    ensures Escape(a + b + c + d + e) == Escape(a) + Escape(b) + Escape(c) + Escape(d) + Escape(e)
  {
    hide Escape;
    EscapeConcat(a + b + c + d, e);
    EscapeConcat(a + b + c, d);
    EscapeConcat(a + b, c);
    EscapeConcat(a, b);
  }

  lemma PendingOfOne(ref: StepRef)
    requires ref.index < |ref.playbook.steps|
    ensures Pending([ref]) == if IsFinal(ref) then [] else [ref]
  {
    hide IsFinal;
    assert [ref][..0] == [];
  }

  /** The specific hint holds the chain's name twice. */
  lemma SpecificSize(ref: StepRef)
    requires ref.index < |ref.playbook.steps| && StepOf(ref).incompleteAlone.None?
    ensures |SpecificSuccessJson(ref)|
            == 60 + 2 * |Escape(ref.playbook.name)|
               + |JsonString(Label(ref))| + |Join(JsonStrings(NextOperations(ref)), ",")|
  {
    RunbookLength(ref.playbook.name);
    hide Escape, Join, JsonStrings, Label, NextOperations;
  }

  lemma ChainHintSize(name: string)
    ensures HintSize([StepRef(Chain(name), 0)]) == 68 + 2 * |Escape(name)|
    ensures HintSize([StepRef(Chain(name), 1)]) == 0
  {
    hide Escape, Join, JsonStrings, JsonString, Pending, Decimal, SpecificSuccessJson;
    var ref := StepRef(Chain(name), 0);
    PendingOfOne(ref);
    PendingOfOne(StepRef(Chain(name), 1));
    assert NextOperations(ref) == ["b"];
    SpecificSize(ref);
    ReadsOneOfTwo();
    ReadsOneName("b");
  }

  lemma ReadsOneOfTwo()
    ensures JsonString(Decimal(1) + "/" + Decimal(2)) == "\"1/2\""
  {
    assert Decimal(1) == "1" && Decimal(2) == "2";
    assert "1" + "/" + "2" == "1/2";
    EscapeNothing("1/2");
  }

  lemma PlainJson(name: string)
    requires NeedsNoEscape(name)
    ensures JsonString(name) == "\"" + name + "\""
  {
    EscapeNothing(name);
  }

  lemma ReadsOneName(name: string)
    requires NeedsNoEscape(name)
    ensures JsonStrings([name]) == ["\"" + name + "\""] && Join(JsonStrings([name]), ",") == "\"" + name + "\""
  {
    EscapeNothing(name);
    assert [name][..0] == [];
    assert JsonStrings([name]) == [] + [JsonString(name)];
  }

  lemma TwoChainsScan(first: string, second: string, operationId: string)
    ensures var refs := Scan([Chain(first), Chain(second)], operationId);
            refs == if operationId == "a" then [StepRef(Chain(first), 0), StepRef(Chain(second), 0)]
                    else if operationId == "b" then [StepRef(Chain(first), 1), StepRef(Chain(second), 1)]
                    else []
  {
    ScanNothing(operationId);
    hide Scan, ScanSteps, Chain;
    var one, other := Chain(first), Chain(second);
    ChainScan(first, operationId);
    ChainScan(second, operationId);
    ScanMore([], one, operationId);
    ScanMore([one], other, operationId);
    assert [] + [one] == [one] && [one] + [other] == [one, other];
  }

  lemma ScanNothing(operationId: string)
    ensures Scan([], operationId) == []
  {
  }

  lemma ChainScan(name: string, operationId: string)
    ensures ScanSteps(Chain(name), |Chain(name).steps|, operationId)
            == if operationId == "a" then [StepRef(Chain(name), 0)]
               else if operationId == "b" then [StepRef(Chain(name), 1)]
               else []
  {
    var chain := Chain(name);
    assert ScanSteps(chain, 0, operationId) == [];
    ScanOneMore(chain, 0, operationId);
    ScanOneMore(chain, 1, operationId);
    hide ScanSteps;
  }

  lemma TwoNames(first: StepRef, second: StepRef)
    ensures PlaybookNames([first, second]) == [first.playbook.name, second.playbook.name]
  {
    assert [first, second][..1] == [first] && [first][..0] == [];
    assert PlaybookNames([first]) == [first.playbook.name];
  }

  lemma TwoPending(first: StepRef, second: StepRef)
    requires first.index < |first.playbook.steps| && second.index < |second.playbook.steps|
    requires !IsFinal(first) && !IsFinal(second)
    ensures Pending([first, second]) == [first, second]
  {
    assert [first, second][..1] == [first];
    PendingOfOne(first);
  }

  /** The success hints as they read, for names without anything to escape: of a two-step chain's first step, */
  lemma ChainHintReads(name: string, quoted: string, runbook: string)
    requires NeedsNoEscape(name) && quoted == "\"" + name + "\""
    requires runbook == "\"" + ("get_playbook(" + "\\\"" + name + "\\\"" + ")") + "\""
    ensures SpecificSuccessJson(StepRef(Chain(name), 0))
            == "{\"name\":" + quoted + ",\"step\":" + "\"1/2\"" + ",\"next\":[" + "\"b\"" + "]"
               + ",\"runbook\":" + runbook + "}"
  {
    hide JsonString, Join, JsonStrings, Decimal, SpecificSuccessJson, NeedsNoEscape;
    assert JsonString(name) == quoted by { PlainJson(name); }
    assert JsonString("get_playbook(\"" + name + "\")") == runbook by { ReadsRunbook(name); }
    ReadsOneOfTwo();
    assert Join(JsonStrings(["b"]), ",") == "\"b\"" by { ReadsB(); }
    ChainHintParts(name);
  }

  lemma ReadsB()
    ensures Join(JsonStrings(["b"]), ",") == "\"b\""
  {
    ReadsOneName("b");
    hide Join, JsonStrings;
  }

  lemma ChainHintParts(name: string)
    ensures SpecificSuccessJson(StepRef(Chain(name), 0))
            == "{\"name\":" + JsonString(name) + ",\"step\":" + JsonString(Decimal(1) + "/" + Decimal(2))
               + ",\"next\":[" + Join(JsonStrings(["b"]), ",") + "]"
               + ",\"runbook\":" + JsonString("get_playbook(\"" + name + "\")") + "}"
  {
    hide JsonString, Join, JsonStrings, Decimal;
    assert NextOperations(StepRef(Chain(name), 0)) == ["b"];
    AddNothing("{\"name\":" + JsonString(name) + ",\"step\":" + JsonString(Label(StepRef(Chain(name), 0)))
               + ",\"next\":[" + Join(JsonStrings(["b"]), ",") + "]");
  }

  lemma AddNothing(s: string)
    ensures s + "" == s
  {
  }

  lemma ReadsRunbook(name: string)
    requires NeedsNoEscape(name)
    ensures JsonString("get_playbook(\"" + name + "\")")
            == "\"" + ("get_playbook(" + "\\\"" + name + "\\\"" + ")") + "\""
  {
    EscapeNothing(name);
    RunbookIsPlain();
    EscapeOneQuote();
    RunbookText(name);
    EscapeOfFive("get_playbook(", "\"", name, "\"", ")");
    hide Escape, NeedsNoEscape;
  }

  lemma RunbookText(name: string)
    ensures "get_playbook(\"" + name + "\")" == "get_playbook(" + "\"" + name + "\"" + ")"
  {
  }

  /** and of a step of several chains, two of which have work left after it. */
  lemma TwoChainsHintReads(first: StepRef, second: StepRef)
    requires NeedsNoEscape(first.playbook.name) && NeedsNoEscape(second.playbook.name)
    ensures MergedSuccessJson([first, second])
            == "{\"in\":[" + ("\"" + first.playbook.name + "\"" + "," + ("\"" + second.playbook.name + "\""))
               + MergedHintEnd()
  {
    var a, b := first.playbook.name, second.playbook.name;
    hide Escape, PlaybookNames, MergedHintEnd, NeedsNoEscape;
    TwoNames(first, second);
    ReadsTwoNames(a, b);
    hide Join, JsonStrings;
  }

  lemma ReadsTwoNames(a: string, b: string)
    requires NeedsNoEscape(a) && NeedsNoEscape(b)
    ensures Join(JsonStrings([a, b]), ",") == "\"" + a + "\"" + "," + ("\"" + b + "\"")
  {
    ReadsOneName(a);
    PlainJson(b);
    hide JsonString, NeedsNoEscape;
    assert [a, b][..1] == [a];
    var texts := JsonStrings([a, b]);
    assert texts[..1] == JsonStrings([a]);
  }

  lemma TwoSizes(a: string, b: string)
    ensures PlainSize([a, b]) == |a| + |b| + 8 && EscapedSize([a, b]) == |Escape(a)| + |Escape(b)| + 6
  {
    hide Escape;
    assert [a, b][..1] == [a] && [a][..0] == [];
    assert PlainSize([a]) == |a| + 4 && EscapedSize([a]) == |Escape(a)| + 3;
  }

  lemma QuotedNames() returns (a: string, b: string)
    ensures a != b && |a| == |b| == 27 && |Escape(a)| == |Escape(b)| == 49
  {
    a, b := Repeat('\"', 22) + "aaaaa", Repeat('\"', 22) + "bbbbb";
    EscapeOfQuotes(22);
    hide Escape, Repeat;
    assert a[26] != b[26];
    EscapeNothing("aaaaa");
    EscapeNothing("bbbbb");
    EscapeConcat(Repeat('\"', 22), "aaaaa");
    EscapeConcat(Repeat('\"', 22), "bbbbb");
  }

  lemma ChainsAreAccepted(first: string, second: string)
    requires first != second && PlainSize([first, second]) <= 62
    requires |Escape(first)| <= 66 && |Escape(second)| <= 66
    ensures Accepted([Chain(first), Chain(second)])
  {
    hide Escape, PlainSize, DescriptionTail, HintSize, IsSound, Scan;
    var playbooks := [Chain(first), Chain(second)];
    forall playbook <- playbooks ensures IsSound(playbook) && HintsFit(playbook) {
      ChainIsSound(playbook.name);
      ChainHintSize(playbook.name);
    }
    forall operationId ensures |DescriptionTail(Scan(playbooks, operationId))| <= DESCRIPTION_TAIL_MAX_CHARS {
      TwoChainsScan(first, second, operationId);
      TwoChainsTail(Chain(first), Chain(second), Scan(playbooks, operationId));
    }
  }

  /** Two chains of two steps, with no failure texts, that every lint accepts: their names hold 22 quotes
      each, which makes a specific hint 166 characters long, the tail 120 and the merged hint 201. */
  lemma QuotedNamesOverrunTheHint() returns (playbooks: seq<Playbook>)
    ensures Accepted(playbooks) && |StepsOf(playbooks, "a")| == 2
    ensures forall playbook <- playbooks :: forall step <- playbook.steps ::
              step.onFailure.None? && step.incompleteAlone.None?
    ensures EscapeOverhead(PlaybookNames(Pending(StepsOf(playbooks, "a")))) == 44
    ensures HintSize(StepsOf(playbooks, "a")) == 201
  {
    var a, b := QuotedNames();
    TwoSizes(a, b);
    hide Escape, Repeat, Pending, PlaybookNames, PlainSize, EscapedSize, HintSize, Accepted, Scan;
    ChainsAreAccepted(a, b);
    playbooks := [Chain(a), Chain(b)];
    TwoChainsScan(a, b, "a");
    var first, second := StepRef(Chain(a), 0), StepRef(Chain(b), 0);
    TwoPending(first, second);
    TwoNames(first, second);
    MergedHintSize([first, second], [first, second]);
  }

  lemma TwoChainsTail(first: Playbook, second: Playbook, refs: seq<StepRef>)
    requires PlainSize([first.name, second.name]) <= 62
    requires refs == [] || exists i :: refs == [StepRef(first, i), StepRef(second, i)]
    ensures |DescriptionTail(refs)| <= DESCRIPTION_TAIL_MAX_CHARS
  {
    if refs != [] {
      TwoNames(refs[0], refs[1]);
      TailSize(refs);
    }
  }
}
