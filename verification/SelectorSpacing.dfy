/** Selectors as people write them: any spacing around operators, commas and parentheses. */
module SelectorSpacing {
  import opened Results
  import opened SelectorCanonical
  import opened SelectorGrammar
  import opened Tags

  predicate Blank(w: string) {
    forall c | c in w :: IsWhitespace(c)
  }

  lemma {:induction false} BlankIsSkipped(w: string, s: string)
    requires Blank(w)
    ensures SkipWhitespace(w + s) == SkipWhitespace(s)
  {
    hide IsWhitespace;
    if w == "" {
      assert w + s == s;
    } else {
      assert w[0] in w && (w + s)[1..] == w[1..] + s;
      BlankIsSkipped(w[1..], s);
    }
  }

  lemma InkIsKept(s: string)
    requires s == "" || !IsWhitespace(s[0])
    ensures SkipWhitespace(s) == s
  {
  }

  // ---- how a predicate may be written ----

  /** The blanks before and behind one value of a set list. */
  datatype Margins = Margins(before: string, behind: string)

  /** One written predicate: the blank before it, those around its operator and those in its list. */
  datatype Spelling = Spelling(gap: string, p: Predicate, before: string, behind: string, margins: seq<Margins>)

  function Values(p: Predicate): seq<string> {
    if p.In? || p.NotIn? then p.values else []
  }

  ghost predicate IsSpelling(spelling: Spelling) {
    && Admissible(spelling.p) && Blank(spelling.gap) && Blank(spelling.before) && Blank(spelling.behind)
    && (spelling.p.In? || spelling.p.NotIn? ==> spelling.before != "")
    && |spelling.margins| == |Values(spelling.p)|
    && forall m | m in spelling.margins :: Blank(m.before) && Blank(m.behind)
  }

  /** A list from behind its opening parenthesis on. */
  function ListText(values: seq<string>, margins: seq<Margins>, tail: string): string {
    if values == [] || margins == [] then tail
    else
      margins[0].before + (Escape(values[0]) + (margins[0].behind +
        if |values| == 1 then ")" + tail else "," + ListText(values[1..], margins[1..], tail)))
  }

  /** What is written behind the key. */
  function OperatorSpelling(spelling: Spelling, tail: string): string {
    match spelling.p
    case Exists(_) => tail
    case NotExists(_) => tail
    case Equals(_, value) => spelling.before + ("=" + (spelling.behind + (Escape(value) + tail)))
    case NotEquals(_, value) => spelling.before + ("!=" + (spelling.behind + (Escape(value) + tail)))
    case In(_, values) =>
      spelling.before + ("in" + (spelling.behind + ("(" + ListText(values, spelling.margins, tail))))
    case NotIn(_, values) =>
      spelling.before + ("notin" + (spelling.behind + ("(" + ListText(values, spelling.margins, tail))))
  }

  function Spelled(spelling: Spelling, tail: string): string {
    if spelling.p.NotExists? then "!" + (spelling.p.key + tail) else spelling.p.key + OperatorSpelling(spelling, tail)
  }

  // ---- set lists ----

  lemma SpacedItem(m: Margins, value: string, after: string, count: nat)
    requires Blank(m.before) && Blank(m.behind) && AdmissibleValue(value) && count < SELECTOR_MAX_SET_VALUES
    requires after != "" && (after[0] == ',' || after[0] == ')')
    ensures Value(SkipWhitespace(m.before + (Escape(value) + (m.behind + after))), true) == Ok((value, m.behind + after))
    ensures SkipWhitespace(m.behind + after) == after
  {
    hide Value, Escape, AdmissibleValue;
    BlankIsSkipped(m.before, Escape(value) + (m.behind + after));
    BlankIsSkipped(m.behind, after);
    InkIsKept(after);
    if m.behind != "" { assert m.behind[0] in m.behind; }
    EscapedValueIsRead(value, m.behind + after, true);
  }

  lemma {:induction false} SpacedListParses(values: seq<string>, margins: seq<Margins>, tail: string, count: nat)
    requires |values| == |margins| > 0 && count + |values| <= SELECTOR_MAX_SET_VALUES
    requires forall v | v in values :: AdmissibleValue(v)
    requires forall m | m in margins :: Blank(m.before) && Blank(m.behind)
    ensures Items(ListText(values, margins, tail), count) == Ok((values, tail))
    decreases |values|
  {
    hide Value, Escape, AdmissibleValue, Blank, SkipWhitespace;
    assert values[0] in values && margins[0] in margins;
    if |values| == 1 {
      SpacedItem(margins[0], values[0], ")" + tail, count);
      assert (")" + tail)[1..] == tail && values == [values[0]];
    } else {
      var rest := ListText(values[1..], margins[1..], tail);
      SpacedItem(margins[0], values[0], "," + rest, count);
      assert ("," + rest)[1..] == rest;
      SpacedListParses(values[1..], margins[1..], tail, count + 1);
      assert values == [values[0]] + values[1..];
    }
  }

  // ---- operators ----

  /** What may stand behind a predicate for it to end there. */
  ghost predicate Continues(p: Predicate, tail: string) {
    match p
    case Exists(_) => EndsAKey(tail) && (SkipWhitespace(tail) == "" || StartsPredicate(SkipWhitespace(tail)))
    case NotExists(_) => EndsAKey(tail)
    case Equals(_, _) => EndsValue(tail, false)
    case NotEquals(_, _) => EndsValue(tail, false)
    case In(_, _) => true
    case NotIn(_, _) => true
  }

  predicate EndsAKey(tail: string) {
    tail == "" || EndsKey(tail[0])
  }

  lemma SpacedEquals(spelling: Spelling, tail: string)
    requires IsSpelling(spelling) && spelling.p.Equals? && EndsValue(tail, false)
    ensures OperatorTail(spelling.p.key, OperatorSpelling(spelling, tail)) == Ok(Some((spelling.p, tail)))
  {
    hide Value, Escape, AdmissibleValue, InSelectorKeySpace, Blank;
    var value := spelling.behind + (Escape(spelling.p.value) + tail);
    BlankIsSkipped(spelling.before, "=" + value);
    InkIsKept("=" + value);
    assert ("=" + value)[1..] == value;
    BlankIsSkipped(spelling.behind, Escape(spelling.p.value) + tail);
    EscapedValueIsRead(spelling.p.value, tail, false);
  }

  lemma SpacedNotEquals(spelling: Spelling, tail: string)
    requires IsSpelling(spelling) && spelling.p.NotEquals? && EndsValue(tail, false)
    ensures OperatorTail(spelling.p.key, OperatorSpelling(spelling, tail)) == Ok(Some((spelling.p, tail)))
  {
    hide Value, Escape, AdmissibleValue, InSelectorKeySpace, Blank;
    var value := spelling.behind + (Escape(spelling.p.value) + tail);
    BlankIsSkipped(spelling.before, "!=" + value);
    InkIsKept("!=" + value);
    assert ("!=" + value)[2..] == value;
    BlankIsSkipped(spelling.behind, Escape(spelling.p.value) + tail);
    EscapedValueIsRead(spelling.p.value, tail, false);
  }

  /** A keyword, a blank or none, and a list. */
  lemma SpacedList(spelling: Spelling, tail: string)
    requires IsSpelling(spelling) && (spelling.p.In? || spelling.p.NotIn?)
    ensures SetList(SkipWhitespace(spelling.behind + ("(" + ListText(spelling.p.values, spelling.margins, tail)))) == Ok((spelling.p.values, tail))
  {
    hide Items, AdmissibleValue, InSelectorKeySpace, Blank, ListText;
    var list := ListText(spelling.p.values, spelling.margins, tail);
    BlankIsSkipped(spelling.behind, "(" + list);
    InkIsKept("(" + list);
    assert ("(" + list)[1..] == list;
    SpacedListParses(spelling.p.values, spelling.margins, tail, 0);
  }

  lemma KeywordIsFound(keyword: string, behind: string, list: string)
    requires (keyword == "in" || keyword == "notin") && Blank(behind)
    ensures AtKeyword(keyword + (behind + ("(" + list)), keyword)
    ensures (keyword + (behind + ("(" + list)))[|keyword|..] == behind + ("(" + list)
  {
    if behind != "" { assert behind[0] in behind; }
  }

  lemma SpacedIn(spelling: Spelling, tail: string)
    requires IsSpelling(spelling) && spelling.p.In?
    ensures OperatorTail(spelling.p.key, OperatorSpelling(spelling, tail)) == Ok(Some((spelling.p, tail)))
  {
    hide SetList, AdmissibleValue, InSelectorKeySpace, Blank, ListText, AtKeyword;
    var list := ListText(spelling.p.values, spelling.margins, tail);
    var text := "in" + (spelling.behind + ("(" + list));
    BlankIsSkipped(spelling.before, text);
    InkIsKept(text);
    KeywordIsFound("in", spelling.behind, list);
    SpacedList(spelling, tail);
  }

  lemma SpacedNotIn(spelling: Spelling, tail: string)
    requires IsSpelling(spelling) && spelling.p.NotIn?
    ensures OperatorTail(spelling.p.key, OperatorSpelling(spelling, tail)) == Ok(Some((spelling.p, tail)))
  {
    hide SetList, AdmissibleValue, InSelectorKeySpace, Blank, ListText;
    var list := ListText(spelling.p.values, spelling.margins, tail);
    var text := "notin" + (spelling.behind + ("(" + list));
    BlankIsSkipped(spelling.before, text);
    InkIsKept(text);
    assert text[0] == 'n' && !("in" <= text);
    KeywordIsFound("notin", spelling.behind, list);
    SpacedList(spelling, tail);
  }

  lemma KeyAloneIsKept(key: QualifiedTag, tail: string)
    requires Continues(Exists(key), tail)
    ensures OperatorTail(key, tail) == Ok(None)
  {
    hide Value, SetList;
  }

  // ---- predicates and whole selectors ----

  lemma OperatorStarts(spelling: Spelling, tail: string)
    requires IsSpelling(spelling) && Continues(spelling.p, tail)
    ensures EndsAKey(OperatorSpelling(spelling, tail))
  {
    hide Escape, ListText, InSelectorKeySpace, AdmissibleValue;
    if spelling.before != "" { assert spelling.before[0] in spelling.before; }
  }

  /** However it is spaced, a written predicate parses to itself and leaves what follows. */
  lemma SpacedPredicateParses(spelling: Spelling, tail: string)
    requires IsSpelling(spelling) && Continues(spelling.p, tail)
    ensures OnePredicate(Spelled(spelling, tail)) == Ok((spelling.p, tail))
  {
    hide OnePredicate, OperatorTail, InSelectorKeySpace, AdmissibleValue, OperatorSpelling;
    var p := spelling.p;
    OperatorStarts(spelling, tail);
    match p {
      case Exists(_) => KeyAloneIsKept(p.key, tail);
      case NotExists(_) =>
      case Equals(_, _) => SpacedEquals(spelling, tail);
      case NotEquals(_, _) => SpacedNotEquals(spelling, tail);
      case In(_, _) => SpacedIn(spelling, tail);
      case NotIn(_, _) => SpacedNotIn(spelling, tail);
    }
    KeyOnly(spelling, tail);
    KeyThenOperator(p.key, OperatorSpelling(spelling, tail));
  }

  lemma KeyOnly(spelling: Spelling, tail: string)
    ensures spelling.p.Exists? || spelling.p.NotExists? ==> OperatorSpelling(spelling, tail) == tail
  {
  }

  /** Written predicates one behind the other, and a blank at the end. */
  function Text(spellings: seq<Spelling>, end: string): string {
    if spellings == [] then end else spellings[0].gap + Spelled(spellings[0], Text(spellings[1..], end))
  }

  /** Two predicates need a blank between them unless the first ends by itself. */
  predicate Joins(p: Predicate, next: Spelling) {
    next.gap != "" || p.In? || p.NotIn? || ((p.Exists? || p.NotExists?) && next.p.NotExists?)
  }

  ghost predicate IsText(spellings: seq<Spelling>) {
    && (forall i | 0 <= i < |spellings| :: IsSpelling(spellings[i]))
    && (forall i | 0 <= i < |spellings| - 1 :: Joins(spellings[i].p, spellings[i + 1]))
  }

  function Predicates(spellings: seq<Spelling>): seq<Predicate> {
    if spellings == [] then [] else [spellings[0].p] + Predicates(spellings[1..])
  }

  lemma SpelledStarts(spelling: Spelling, tail: string)
    ensures StartsPredicate(Spelled(spelling, tail))
  {
    hide OperatorSpelling, StartsPredicate;
    KeyStarts(spelling.p.key, OperatorSpelling(spelling, tail));
    KeyStarts(spelling.p.key, tail);
  }

  lemma TextUnfolds(spellings: seq<Spelling>)
    requires IsText(spellings) && spellings != []
    ensures IsSpelling(spellings[0]) && IsText(spellings[1..]) && (|spellings| > 1 ==> Joins(spellings[0].p, spellings[1..][0]))
  {
    hide IsSpelling, Joins;
    var rest := spellings[1..];
    assert forall i | 0 <= i < |rest| :: rest[i] == spellings[i + 1];
    assert |spellings| > 1 ==> Joins(spellings[0].p, spellings[0 + 1]);
  }

  /** A spaced text parses to its predicates, in order. */
  lemma {:induction false} SpacedTextParses(spellings: seq<Spelling>, end: string, bounded: bool, count: nat)
    requires Blank(end) && IsText(spellings) && (bounded ==> count + |spellings| <= SELECTOR_MAX_PREDICATES)
    ensures Stream(Text(spellings, end), bounded, count) == Ok(Predicates(spellings))
    decreases |spellings|
  {
    hide OnePredicate, Spelled, IsWhitespace, Admissible, Continues, Joins, IsText;
    if spellings == [] {
      AllBlank(end);
      BlankStreamIsEmpty(end, bounded, count);
    } else {
      var first, rest := spellings[0], spellings[1..];
      TextUnfolds(spellings);
      var tail := Text(rest, end);
      TextContinues(first.p, rest, end);
      SpacedPredicateParses(first, tail);
      SpelledStarts(first, tail);
      SpacedTextParses(rest, end, bounded, count + 1);
      BlankIsSkipped(first.gap, Spelled(first, tail));
      StreamReads(Spelled(first, tail), bounded, count, first.p, tail);
      SameInk(first.gap + Spelled(first, tail), Spelled(first, tail), bounded, count);
    }
  }

  lemma TextContinues(p: Predicate, rest: seq<Spelling>, end: string)
    requires Blank(end) && IsText(rest) && (rest != [] ==> Joins(p, rest[0]))
    ensures Continues(p, Text(rest, end))
  {
    hide Spelled, StartsPredicate, Admissible;
    if rest == [] {
      AllBlank(end);
      if end != "" { assert end[0] in end; }
    } else {
      var gap := rest[0].gap;
      var s := Spelled(rest[0], Text(rest[1..], end));
      assert IsSpelling(rest[0]);
      if gap != "" { assert gap[0] in gap; }
      SpelledStarts(rest[0], Text(rest[1..], end));
      BlankIsSkipped(gap, s);
      PredicateStart(s);
      InkIsKept(s);
      if rest[0].p.NotExists? { NegationStarts(rest[0], Text(rest[1..], end)); }
    }
  }

  lemma NegationStarts(spelling: Spelling, tail: string)
    requires spelling.p.NotExists?
    ensures Spelled(spelling, tail) != "" && Spelled(spelling, tail)[0] == '!'
  {
  }

  lemma AllBlank(w: string)
    requires Blank(w)
    ensures SkipWhitespace(w) == ""
  {
    BlankIsSkipped(w, "");
    assert w + "" == w;
  }

  lemma SameInk(a: string, b: string, bounded: bool, count: nat)
    requires SkipWhitespace(a) == SkipWhitespace(b)
    ensures Stream(a, bounded, count) == Stream(b, bounded, count)
  {
    hide OnePredicate;
  }

  // ---- every accepted text is one ----

  /** The blank a text starts with. */
  function Lead(s: string): string {
    s[..|s| - |SkipWhitespace(s)|]
  }

  lemma {:induction false} LeadIsBlank(s: string)
    ensures Blank(Lead(s)) && s == Lead(s) + SkipWhitespace(s)
  {
    hide IsWhitespace;
    if s != "" && IsWhitespace(s[0]) {
      LeadIsBlank(s[1..]);
      assert Lead(s) == [s[0]] + Lead(s[1..]);
      assert s == [s[0]] + s[1..];
    } else {
      assert Lead(s) == "";
    }
  }

  /** The characters a value is read from are the ones it is written with. */
  lemma EscapesBack(c: char)
    ensures Unescape(c).Some? ==> EscapeChar(Unescape(c).value) == ['\\', c]
    ensures !IsWhitespace(c) && !IsSpecial(c) ==> EscapeChar(c) == [c]
  {
  }

  lemma EscapeOneMore(c: char, value: string, rest: string)
    ensures Escape([c] + value) + rest == EscapeChar(c) + (Escape(value) + rest)
  {
    hide EscapeChar;
    assert ([c] + value)[1..] == value;
  }

  lemma {:induction false} ValueText(s: string, inList: bool)
    requires RawValue(s, inList).Ok?
    ensures s == Escape(RawValue(s, inList).value.0) + RawValue(s, inList).value.1
    ensures EndsValue(RawValue(s, inList).value.1, inList)
    decreases |s|
  {
    hide IsWhitespace, Escape, EscapeChar, Unescape;
    if s == "" || (s[0] != '\\' && EndsValue(s, inList)) {
      NothingEscaped(s);
    } else if s[0] == '\\' {
      ValueText(s[2..], inList);
      var (value, rest) := RawValue(s[2..], inList).value;
      EscapesBack(s[1]);
      EscapeOneMore(Unescape(s[1]).value, value, rest);
      assert s == ['\\', s[1]] + s[2..];
    } else {
      ValueText(s[1..], inList);
      var (value, rest) := RawValue(s[1..], inList).value;
      EscapesBack(s[0]);
      EscapeOneMore(s[0], value, rest);
      assert s == [s[0]] + s[1..];
    }
  }

  lemma NothingEscaped(s: string)
    ensures Escape("") + s == s
  {
  }

  lemma ReadValue(s: string, inList: bool)
    requires Value(SkipWhitespace(s), inList).Ok?
    ensures var (value, rest) := Value(SkipWhitespace(s), inList).value;
            s == Lead(s) + (Escape(value) + rest) && EndsValue(rest, inList)
  {
    hide Escape, RawValue;
    LeadIsBlank(s);
    ValueText(SkipWhitespace(s), inList);
  }

  /** One value read out of a list, and what was read behind it. */
  lemma ItemRead(s: string, count: nat)
    requires Items(s, count).Ok?
    ensures Value(SkipWhitespace(s), true).Ok?
    ensures var (value, rest) := Value(SkipWhitespace(s), true).value;
            var next := SkipWhitespace(rest);
            && next != "" && |next| <= |s| && next == [next[0]] + next[1..]
            && (if next[0] == ',' then
                  var more := Items(next[1..], count + 1);
                  more.Ok? && Items(s, count).value == ([value] + more.value.0, more.value.1)
                else next[0] == ')' && Items(s, count).value == ([value], next[1..]))
  {
    hide Value;
  }

  lemma {:induction false} ListOf(s: string, count: nat) returns (margins: seq<Margins>)
    requires Items(s, count).Ok?
    ensures |margins| == |Items(s, count).value.0| && forall m | m in margins :: Blank(m.before) && Blank(m.behind)
    ensures s == ListText(Items(s, count).value.0, margins, Items(s, count).value.1)
    decreases |s|
  {
    hide Items, Value, Escape, EndsValue, Blank, Lead, SkipWhitespace, BoundedValue;
    ItemRead(s, count);
    var (value, rest) := Value(SkipWhitespace(s), true).value;
    ReadValue(s, true);
    LeadIsBlank(s);
    LeadIsBlank(rest);
    var next := SkipWhitespace(rest);
    var first := Margins(Lead(s), Lead(rest));
    if next[0] == ',' {
      var more := ListOf(next[1..], count + 1);
      margins := [first] + more;
      assert margins[1..] == more && ([value] + Items(next[1..], count + 1).value.0)[1..] == Items(next[1..], count + 1).value.0;
    } else {
      margins := [first];
    }
  }

  /** The value read behind an equality sign. */
  lemma EqualityRead(key: QualifiedTag, s: string)
    requires OperatorTail(key, s).Ok? && SkipWhitespace(s) != ""
    ensures var rest := SkipWhitespace(s);
            rest[0] == '=' ==>
              var value := Value(SkipWhitespace(rest[1..]), false);
              value.Ok? && OperatorTail(key, s) == Ok(Some((Equals(key, value.value.0), value.value.1))) && rest == "=" + rest[1..]
    ensures var rest := SkipWhitespace(s);
            rest[0] == '!' && OperatorTail(key, s).value.Some? ==>
              && |rest| > 1 && rest == "!=" + rest[2..]
              && var value := Value(SkipWhitespace(rest[2..]), false);
                 value.Ok? && OperatorTail(key, s) == Ok(Some((NotEquals(key, value.value.0), value.value.1)))
  {
    hide Value, SetList, SkipWhitespace;
  }

  lemma EqualsOf(key: QualifiedTag, s: string) returns (spelling: Spelling)
    requires OperatorTail(key, s).Ok? && SkipWhitespace(s) != "" && SkipWhitespace(s)[0] == '='
    ensures OperatorTail(key, s).value.Some? && OperatorTail(key, s).value.value.0.Equals?
    ensures var (p, tail) := OperatorTail(key, s).value.value;
            && spelling.p == p && spelling.gap == "" && s == OperatorSpelling(spelling, tail) && EndsValue(tail, false)
            && (Admissible(p) ==> IsSpelling(spelling))
  {
    hide OperatorTail, SkipWhitespace, Value, Escape, Blank, Lead, Admissible, EndsValue;
    EqualityRead(key, s);
    var rest := SkipWhitespace(s);
    LeadIsBlank(s);
    ReadValue(rest[1..], false);
    LeadIsBlank(rest[1..]);
    spelling := Spelling("", OperatorTail(key, s).value.value.0, Lead(s), Lead(rest[1..]), []);
    NothingIsBlank();
  }

  lemma NotEqualsOf(key: QualifiedTag, s: string) returns (spelling: Spelling)
    requires OperatorTail(key, s).Ok? && OperatorTail(key, s).value.Some? && SkipWhitespace(s) != "" && SkipWhitespace(s)[0] == '!'
    ensures OperatorTail(key, s).value.value.0.NotEquals?
    ensures var (p, tail) := OperatorTail(key, s).value.value;
            && spelling.p == p && spelling.gap == "" && s == OperatorSpelling(spelling, tail) && EndsValue(tail, false)
            && (Admissible(p) ==> IsSpelling(spelling))
  {
    hide OperatorTail, SkipWhitespace, Value, Escape, Blank, Lead, Admissible, EndsValue;
    EqualityRead(key, s);
    var rest := SkipWhitespace(s);
    LeadIsBlank(s);
    ReadValue(rest[2..], false);
    LeadIsBlank(rest[2..]);
    spelling := Spelling("", OperatorTail(key, s).value.value.0, Lead(s), Lead(rest[2..]), []);
    NothingIsBlank();
  }

  lemma OperatorKinds(key: QualifiedTag, s: string)
    requires OperatorTail(key, s).Ok? && OperatorTail(key, s).value.Some?
    ensures SkipWhitespace(s) != ""
    ensures SkipWhitespace(s)[0] == '=' || SkipWhitespace(s)[0] == '!' ||
            OperatorTail(key, s).value.value.0.In? || OperatorTail(key, s).value.value.0.NotIn?
  {
    hide Value, SetList, SkipWhitespace;
  }

  /** The spelling of an operator that was read behind a key. */
  lemma OperatorOf(key: QualifiedTag, s: string) returns (spelling: Spelling)
    requires EndsAKey(s) && OperatorTail(key, s).Ok? && OperatorTail(key, s).value.Some?
    ensures var (p, tail) := OperatorTail(key, s).value.value;
            && spelling.p == p && spelling.gap == "" && s == OperatorSpelling(spelling, tail) && EndsBehind(p, tail)
            && !p.Exists? && !p.NotExists?
            && (Admissible(p) ==> IsSpelling(spelling))
  {
    hide OperatorTail, OperatorSpelling, SkipWhitespace, Admissible, IsSpelling, EndsValue, EndsAKey;
    OperatorKinds(key, s);
    if SkipWhitespace(s)[0] == '=' {
      spelling := EqualsOf(key, s);
    } else if SkipWhitespace(s)[0] == '!' {
      spelling := NotEqualsOf(key, s);
    } else {
      spelling := KeywordOf(key, s);
    }
  }

  lemma NothingIsBlank()
    ensures Blank("")
  {
  }

  lemma KeywordNeedsBlank(s: string, keyword: string)
    requires EndsAKey(s) && (keyword == "in" || keyword == "notin") && keyword <= SkipWhitespace(s)
    ensures Lead(s) != ""
  {
    var rest := SkipWhitespace(s);
    LeadIsBlank(s);
    assert rest[0] == keyword[0] && !EndsKey(rest[0]);
  }

  lemma KeywordOf(key: QualifiedTag, s: string) returns (spelling: Spelling)
    requires EndsAKey(s) && OperatorTail(key, s).Ok? && OperatorTail(key, s).value.Some?
    requires var p := OperatorTail(key, s).value.value.0; p.In? || p.NotIn?
    ensures var (p, tail) := OperatorTail(key, s).value.value;
            && spelling.p == p && spelling.gap == "" && s == OperatorSpelling(spelling, tail)
            && (Admissible(p) ==> IsSpelling(spelling))
  {
    hide OperatorTail, SkipWhitespace, Items, Blank, Lead, Admissible, ListText;
    KeywordRead(key, s);
    var (p, tail) := OperatorTail(key, s).value.value;
    var rest := SkipWhitespace(s);
    LeadIsBlank(s);
    var keyword := if p.In? then "in" else "notin";
    var behind := rest[|keyword|..];
    LeadIsBlank(behind);
    var list := SkipWhitespace(behind);
    var margins := ListOf(list[1..], 0);
    spelling := Spelling("", p, Lead(s), Lead(behind), margins);
    KeywordNeedsBlank(s, keyword);
    NothingIsBlank();
  }

  lemma KeywordRead(key: QualifiedTag, s: string)
    requires OperatorTail(key, s).Ok? && OperatorTail(key, s).value.Some?
    requires var p := OperatorTail(key, s).value.value.0; p.In? || p.NotIn?
    ensures var (p, tail) := OperatorTail(key, s).value.value;
            var keyword := if p.In? then "in" else "notin";
            var rest := SkipWhitespace(s);
            && keyword <= rest && rest == keyword + rest[|keyword|..]
            && var list := SkipWhitespace(rest[|keyword|..]);
               list != "" && list == "(" + list[1..] && Items(list[1..], 0) == Ok((p.values, tail))
  {
    hide Value, Items, SkipWhitespace;
  }

  /** The spelling of a predicate that was read. */
  lemma PredicateOf(s: string) returns (spelling: Spelling)
    requires OnePredicate(s).Ok?
    ensures var (p, tail) := OnePredicate(s).value;
            spelling.p == p && spelling.gap == "" && IsSpelling(spelling) && s == Spelled(spelling, tail) && EndsBehind(p, tail)
  {
    hide OperatorTail, Admissible, OperatorSpelling, Key, IsSpelling, EndsAKey, EndsValue, StartsPredicate;
    OnePredicateIsAdmissible(s);
    var (p, tail) := OnePredicate(s).value;
    if s != "" && s[0] == '!' {
      KeyText(s[1..]);
      spelling := Spelling("", p, "", "", []);
      BareIsSpelling(p);
      assert s == "!" + s[1..];
    } else {
      KeyText(s);
      var (key, after) := Key(s).value;
      if OperatorTail(key, after).value.Some? {
        spelling := OperatorOf(key, after);
      } else {
        spelling := Spelling("", p, "", "", []);
        KeyOnly(spelling, tail);
        BareIsSpelling(p);
      }
    }
  }

  lemma BareIsSpelling(p: Predicate)
    requires Admissible(p) && (p.Exists? || p.NotExists?)
    ensures IsSpelling(Spelling("", p, "", "", []))
  {
  }

  /** How the text behind a predicate that was read can start. */
  ghost predicate EndsBehind(p: Predicate, tail: string) {
    match p
    case Exists(_) => EndsAKey(tail)
    case NotExists(_) => EndsAKey(tail)
    case Equals(_, _) => EndsValue(tail, false)
    case NotEquals(_, _) => EndsValue(tail, false)
    case In(_, _) => true
    case NotIn(_, _) => true
  }

  lemma KeyText(s: string)
    requires Key(s).Ok?
    ensures s == Key(s).value.0 + Key(s).value.1 && EndsAKey(Key(s).value.1)
  {
    KeyEnds(s);
    assert s == s[..KeyEnd(s)] + s[KeyEnd(s)..];
  }

  lemma {:induction false} KeyEnds(s: string)
    ensures EndsAKey(s[KeyEnd(s)..])
  {
    if s != "" && !EndsKey(s[0]) {
      KeyEnds(s[1..]);
      assert s[1..][KeyEnd(s[1..])..] == s[KeyEnd(s)..];
    }
  }

  lemma {:induction false} TextOf(s: string, bounded: bool, count: nat) returns (spellings: seq<Spelling>, end: string)
    requires Stream(s, bounded, count).Ok?
    ensures IsText(spellings) && Blank(end) && Text(spellings, end) == s && Predicates(spellings) == Stream(s, bounded, count).value
    decreases |s|
  {
    hide OnePredicate, Spelled, Blank, Lead, IsSpelling, SkipWhitespace, Stream, EndsBehind, Joins;
    LeadIsBlank(s);
    var rest := SkipWhitespace(s);
    if rest == "" {
      BlankStreamIsEmpty(s, bounded, count);
      spellings, end := [], s;
      assert Lead(s) + "" == Lead(s);
    } else {
      StreamUnfolds(s, bounded, count);
      var (p, tail) := OnePredicate(rest).value;
      var bare := PredicateOf(rest);
      var first := bare.(gap := Lead(s));
      SameSpelling(bare, first, tail);
      var more;
      more, end := TextOf(tail, bounded, count + 1);
      spellings := [first] + more;
      assert spellings[1..] == more;
      if more != [] {
        JoinsBehind(p, more, end);
      }
      assert forall i | 0 <= i < |more| :: spellings[i + 1] == more[i];
    }
  }

  lemma SameSpelling(a: Spelling, b: Spelling, tail: string)
    requires IsSpelling(a) && b == a.(gap := b.gap) && Blank(b.gap)
    ensures IsSpelling(b) && Spelled(b, tail) == Spelled(a, tail)
  {
    hide Blank, Admissible;
  }

  lemma SpelledInk(spelling: Spelling, tail: string)
    ensures var s := Spelled(spelling, tail);
            s != "" && !IsWhitespace(s[0]) && (if spelling.p.NotExists? then s[0] == '!' else !EndsKey(s[0]))
  {
    hide OperatorSpelling;
    TagShape(spelling.p.key);
    assert spelling.p.key[0] in spelling.p.key;
  }

  lemma JoinsBehind(p: Predicate, more: seq<Spelling>, end: string)
    requires more != [] && EndsBehind(p, Text(more, end))
    ensures Joins(p, more[0])
  {
    hide Spelled, IsWhitespace, IsSpecial;
    var next := more[0];
    var tail := Text(more[1..], end);
    SpelledInk(next, tail);
    assert next.gap == "" ==> Text(more, end) == Spelled(next, tail);
  }

  /** The parser accepts exactly the spaced texts, and reads out of each the predicates written in it. */
  lemma ParserIsTheLanguage(s: string, ps: seq<Predicate>, bounded: bool)
    ensures Stream(s, bounded, 0) == Ok(ps) <==>
            && (bounded ==> |ps| <= SELECTOR_MAX_PREDICATES)
            && exists spellings, end :: IsText(spellings) && Blank(end) && Text(spellings, end) == s && Predicates(spellings) == ps
  {
    hide Stream, Text, IsText, Blank;
    if Stream(s, bounded, 0) == Ok(ps) {
      var spellings, end := TextOf(s, bounded, 0);
    }
    if exists spellings, end :: IsText(spellings) && Blank(end) && Text(spellings, end) == s && Predicates(spellings) == ps {
      var spellings, end :| IsText(spellings) && Blank(end) && Text(spellings, end) == s && Predicates(spellings) == ps;
      PredicateCount(spellings);
      if bounded ==> |ps| <= SELECTOR_MAX_PREDICATES {
        SpacedTextParses(spellings, end, bounded, 0);
      }
    }
  }

  /** A selector is accepted exactly when it is a spaced text of one to sixteen predicates, and it and its canonical text fit. */
  lemma AcceptedExactly(value: string)
    ensures Parse(value).Ok? <==>
            && value != "" && ByteLength(value) <= 1024
            && exists spellings, end ::
                 && IsText(spellings) && Blank(end) && Text(spellings, end) == value
                 && 1 <= |spellings| <= 16 && ByteLength(CanonicalText(Predicates(spellings))) <= 1024
  {
    ReparseNeverFails(value);
    hide Parse, Text, IsText, Blank, CanonicalText, ByteLength, Stream;
    if Stream(value, true, 0).Ok? {
      var spellings, end := TextOf(value, true, 0);
      PredicateCount(spellings);
      BoundedCount(value);
    }
    forall spellings, end |
      IsText(spellings) && Blank(end) && Text(spellings, end) == value && 1 <= |spellings| <= 16
      ensures Stream(value, true, 0) == Ok(Predicates(spellings)) && Predicates(spellings) != []
    {
      PredicateCount(spellings);
      SpacedTextParses(spellings, end, true, 0);
    }
  }

  lemma BoundedCount(value: string)
    requires Stream(value, true, 0).Ok?
    ensures |Stream(value, true, 0).value| <= SELECTOR_MAX_PREDICATES
  {
  }

  /** Two spellings of the same predicates are the same selector. */
  lemma SpacingDoesNotMatter(a: seq<Spelling>, endOfA: string, b: seq<Spelling>, endOfB: string)
    requires IsText(a) && IsText(b) && Blank(endOfA) && Blank(endOfB)
    requires Predicates(a) == Predicates(b) && 1 <= |a| <= SELECTOR_MAX_PREDICATES
    requires ByteLength(Text(a, endOfA)) <= SELECTOR_INPUT_MAX_BYTES && ByteLength(Text(b, endOfB)) <= SELECTOR_INPUT_MAX_BYTES
    ensures Parse(Text(a, endOfA)) == Parse(Text(b, endOfB))
  {
    hide Text, Stream, IsText, CanonicalText, ByteLength;
    PredicateCount(a);
    PredicateCount(b);
    SpacedTextParses(a, endOfA, true, 0);
    SpacedTextParses(b, endOfB, true, 0);
    NothingIsNoText();
  }

  lemma {:induction false} PredicateCount(spellings: seq<Spelling>)
    ensures |Predicates(spellings)| == |spellings|
  {
    if spellings != [] { PredicateCount(spellings[1..]); }
  }

  lemma NothingIsNoText()
    ensures Stream("", true, 0) == Ok([])
  {
  }
}
