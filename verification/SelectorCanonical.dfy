/**
 The canonical form of a selector: it reparses to exactly the stored predicates, prints to
 itself, means what the caller wrote, and identifies the selector.
 */
module SelectorCanonical {
  import opened Ordering
  import opened Results
  import opened Tags
  import opened SelectorGrammar

  // ---- what the parser can produce ----

  /** Values whose only whitespace is the four characters an escape can name. */
  predicate Representable(value: string) {
    forall c | c in value :: IsWhitespace(c) ==> c == ' ' || c == '\t' || c == '\n' || c == '\r'
  }

  predicate AdmissibleValue(value: string) {
    Representable(value) && value != "" && ByteLength(value) <= 256
  }

  predicate Admissible(p: Predicate) {
    && InSelectorKeySpace(p.key)
    && match p
       case Exists(_) => true
       case NotExists(_) => true
       case Equals(_, value) => AdmissibleValue(value)
       case NotEquals(_, value) => AdmissibleValue(value)
       case In(_, values) => 1 <= |values| <= 16 && forall v | v in values :: AdmissibleValue(v)
       case NotIn(_, values) => 1 <= |values| <= 16 && forall v | v in values :: AdmissibleValue(v)
  }

  lemma {:induction false} RawValueIsRepresentable(s: string, inList: bool)
    requires RawValue(s, inList).Ok?
    ensures Representable(RawValue(s, inList).value.0)
  {
    if s != "" && s[0] == '\\' {
      RawValueIsRepresentable(s[2..], inList);
    } else if s != "" && !IsWhitespace(s[0]) && !IsSpecial(s[0]) {
      RawValueIsRepresentable(s[1..], inList);
    }
  }

  lemma {:induction false} ItemsAreAdmissible(s: string, count: nat)
    requires Items(s, count).Ok?
    ensures forall v | v in Items(s, count).value.0 :: AdmissibleValue(v)
    decreases |s|
  {
    RawValueIsRepresentable(SkipWhitespace(s), true);
    var next := SkipWhitespace(Value(SkipWhitespace(s), true).value.1);
    if next[0] == ',' {
      ItemsAreAdmissible(next[1..], count + 1);
    }
  }

  lemma OperatorTailIsAdmissible(key: QualifiedTag, s: string)
    requires InSelectorKeySpace(key)
    requires OperatorTail(key, s).Ok? && OperatorTail(key, s).value.Some?
    ensures Admissible(OperatorTail(key, s).value.value.0)
  {
    var rest := SkipWhitespace(s);
    if rest[0] == '=' {
      RawValueIsRepresentable(SkipWhitespace(rest[1..]), false);
    } else if rest[0] == '!' {
      RawValueIsRepresentable(SkipWhitespace(rest[2..]), false);
    } else if AtKeyword(rest, "in") {
      ItemsAreAdmissible(SkipWhitespace(rest[2..])[1..], 0);
    } else {
      ItemsAreAdmissible(SkipWhitespace(rest[5..])[1..], 0);
    }
  }

  lemma OnePredicateIsAdmissible(s: string)
    requires OnePredicate(s).Ok?
    ensures Admissible(OnePredicate(s).value.0)
  {
    if s == "" || s[0] != '!' {
      var (key, rest) := Key(s).value;
      if OperatorTail(key, rest).value.Some? {
        OperatorTailIsAdmissible(key, rest);
      }
    }
  }

  lemma StreamUnfolds(s: string, bounded: bool, count: nat)
    requires Stream(s, bounded, count).Ok? && SkipWhitespace(s) != ""
    ensures var one := OnePredicate(SkipWhitespace(s));
            && one.Ok? && |one.value.1| < |s|
            && Stream(one.value.1, bounded, count + 1).Ok?
            && Stream(s, bounded, count).value == [one.value.0] + Stream(one.value.1, bounded, count + 1).value
  {
  }

  lemma BlankStreamIsEmpty(s: string, bounded: bool, count: nat)
    requires SkipWhitespace(s) == ""
    ensures Stream(s, bounded, count) == Ok([])
  {
  }

  /** Everything the predicate loop accepts is admissible, on any input. */
  lemma {:induction false} StreamIsAdmissible(s: string, bounded: bool, count: nat)
    requires Stream(s, bounded, count).Ok?
    ensures forall p | p in Stream(s, bounded, count).value :: Admissible(p)
    decreases |s|
  {
    hide *;
    if SkipWhitespace(s) == "" {
      BlankStreamIsEmpty(s, bounded, count);
    } else {
      StreamUnfolds(s, bounded, count);
      var (_, tail) := OnePredicate(SkipWhitespace(s)).value;
      OnePredicateIsAdmissible(SkipWhitespace(s));
      StreamIsAdmissible(tail, bounded, count + 1);
    }
  }

  // ---- parse after print ----

  predicate EndsValue(tail: string, inList: bool) {
    tail == "" || IsWhitespace(tail[0]) || (inList && (tail[0] == ',' || tail[0] == ')'))
  }

  lemma EscapedCharParses(c: char, more: string, inList: bool)
    requires Representable([c])
    ensures RawValue(EscapeChar(c) + more, inList) ==
            match RawValue(more, inList) { case Ok((value, rest)) => Ok(([c] + value, rest)) case Err(error) => Err(error) }
  {
    var s := EscapeChar(c) + more;
    assert c in [c];
    if |EscapeChar(c)| == 2 {
      assert s[0] == '\\' && s[1] == EscapeChar(c)[1] && s[2..] == more;
    } else {
      assert s[0] == c && s[1..] == more;
    }
  }

  lemma EscapeUnfolds(value: string, tail: string)
    requires value != "" && Representable(value)
    ensures Escape(value) + tail == EscapeChar(value[0]) + (Escape(value[1..]) + tail)
    ensures Representable([value[0]]) && Representable(value[1..])
  {
    assert value[0] in value;
  }

  lemma DelimiterEndsValue(tail: string, inList: bool)
    requires EndsValue(tail, inList)
    ensures RawValue(Escape("") + tail, inList) == Ok(("", tail))
  {
    assert Escape("") + tail == tail;
  }

  /** Escaping then parsing returns the value exactly, whatever delimiter follows. */
  lemma {:induction false} EscapedValueParses(value: string, tail: string, inList: bool)
    requires Representable(value) && EndsValue(tail, inList)
    ensures RawValue(Escape(value) + tail, inList) == Ok((value, tail))
  {
    hide *;
    if value == "" {
      DelimiterEndsValue(tail, inList);
    } else {
      EscapeUnfolds(value, tail);
      EscapedValueParses(value[1..], tail, inList);
      EscapedCharParses(value[0], Escape(value[1..]) + tail, inList);
      assert value == [value[0]] + value[1..];
    }
  }

  /** The round trip holds exactly for the representable values: a value holding any other
      whitespace is cut at it, because only four whitespace characters have an escape. */
  lemma EscapeRoundTripsExactly(value: string, inList: bool)
    ensures RawValue(Escape(value), inList) == Ok((value, "")) <==> Representable(value)
  {
    if Representable(value) {
      EscapedValueParses(value, "", inList);
      assert Escape(value) + "" == Escape(value);
    } else if RawValue(Escape(value), inList) == Ok((value, "")) {
      RawValueIsRepresentable(Escape(value), inList);
    }
  }

  /** A no-break space is the witness: the value `a` U+00A0 `b` does not survive. */
  lemma NoBreakSpaceIsLost()
    ensures var value := "a\U{A0}b"; RawValue(Escape(value), false) != Ok((value, ""))
  {
    var value := "a\U{A0}b";
    assert value[1] in value && IsWhitespace(value[1]);
    EscapeRoundTripsExactly(value, false);
  }

  lemma EscapeStart(value: string)
    requires AdmissibleValue(value)
    ensures Escape(value) != "" && !IsWhitespace(Escape(value)[0])
  {
    assert value[0] in value;
    assert Escape(value) == EscapeChar(value[0]) + Escape(value[1..]);
  }

  lemma EscapedValueIsRead(value: string, tail: string, inList: bool)
    requires AdmissibleValue(value) && EndsValue(tail, inList)
    ensures Value(SkipWhitespace(Escape(value) + tail), inList) == Ok((value, tail))
  {
    EscapeStart(value);
    EscapedValueParses(value, tail, inList);
  }

  lemma ItemThenComma(value: string, rest: string, count: nat)
    requires AdmissibleValue(value) && count < SELECTOR_MAX_SET_VALUES
    ensures Items(Escape(value) + ("," + rest), count) ==
            match Items(rest, count + 1) { case Ok((values, tail)) => Ok(([value] + values, tail)) case Err(error) => Err(error) }
  {
    hide Escape, AdmissibleValue, Value;
    EscapedValueIsRead(value, "," + rest, true);
    assert ("," + rest)[1..] == rest;
  }

  lemma ItemThenClose(value: string, tail: string, count: nat)
    requires AdmissibleValue(value) && count < SELECTOR_MAX_SET_VALUES
    ensures Items(Escape(value) + (")" + tail), count) == Ok(([value], tail))
  {
    hide Escape, AdmissibleValue, Value;
    EscapedValueIsRead(value, ")" + tail, true);
    assert (")" + tail)[1..] == tail;
  }

  lemma JoinOne(text: string, separator: string)
    ensures Join([text], separator) == text
  {
  }

  lemma JoinMore(texts: seq<string>, separator: string)
    requires |texts| > 1
    ensures Join(texts, separator) == texts[0] + (separator + Join(texts[1..], separator))
  {
  }

  lemma {:induction false} SetTextParses(values: seq<string>, tail: string, count: nat)
    requires values != [] && count + |values| <= SELECTOR_MAX_SET_VALUES
    requires forall v | v in values :: AdmissibleValue(v)
    ensures Items(Join(Map(Escape, values), ",") + (")" + tail), count) == Ok((values, tail))
    decreases |values|
  {
    hide *;
    var texts := Map(Escape, values);
    assert values[0] in values;
    if |values| == 1 {
      assert texts == [Escape(values[0])] && values == [values[0]];
      JoinOne(Escape(values[0]), ",");
      ItemThenClose(values[0], tail, count);
    } else {
      var rest := Join(Map(Escape, values[1..]), ",") + (")" + tail);
      assert texts[1..] == Map(Escape, values[1..]);
      JoinMore(texts, ",");
      assert Join(texts, ",") + (")" + tail) == Escape(values[0]) + ("," + rest);
      ItemThenComma(values[0], rest, count);
      SetTextParses(values[1..], tail, count + 1);
      assert values == [values[0]] + values[1..];
    }
  }

  lemma {:induction false} KeyEndOfTag(tag: string, tail: string)
    requires forall c | c in tag :: TagChar(c)
    requires tail == "" || EndsKey(tail[0])
    ensures KeyEnd(tag + tail) == |tag|
  {
    if tag == "" {
      assert tag + tail == tail;
    } else {
      assert tag[0] in tag;
      assert (tag + tail)[1..] == tag[1..] + tail;
      KeyEndOfTag(tag[1..], tail);
    }
  }

  lemma KeyParses(key: QualifiedTag, tail: string)
    requires InSelectorKeySpace(key)
    requires tail == "" || EndsKey(tail[0])
    ensures Key(key + tail) == Ok((key, tail))
  {
    TagShape(key);
    KeyEndOfTag(key, tail);
    assert (key + tail)[..|key|] == key && (key + tail)[|key|..] == tail;
  }

  /** What may follow a predicate inside a canonical text: nothing, or a space and another predicate. */
  predicate FollowsPredicate(tail: string) {
    tail == "" || (tail[0] == ' ' && StartsPredicate(tail[1..]))
  }

  predicate StartsPredicate(s: string) {
    && s != "" && !IsWhitespace(s[0])
    && s[0] != '='
    && (s[0] == '!' ==> |s| > 1 && s[1] != '=')
    && !AtKeyword(s, "in") && !AtKeyword(s, "notin")
  }

  lemma CanonicalStarts(p: Predicate, tail: string)
    ensures StartsPredicate(Canonical(p) + tail)
  {
    hide Canonical, OperatorText;
    var more := OperatorText(p) + tail;
    CanonicalIsKeyThenOperator(p, tail);
    if !p.NotExists? {
      assert "" + (p.key + more) == p.key + more;
    }
    KeyStarts(p.key, more);
  }

  lemma KeyStarts(key: QualifiedTag, more: string)
    ensures StartsPredicate(key + more) && StartsPredicate("!" + (key + more))
  {
    TagShape(key);
    TagIsNoKeyword(key);
    var s := key + more;
    assert key[0] in key && s[0] == key[0] && ("!" + s)[1] == key[0];
    assert forall i | 0 <= i < |key| :: s[i] == key[i];
    assert "in" <= s ==> s[..2] == "in" && key[..2] == s[..2];
    assert |key| >= 5;
    assert "notin" <= s ==> s[..5] == "notin" && key[..5] == s[..5];
  }

  /** A key never collides with a set keyword: the keyword would end inside the tag. */
  lemma TagIsNoKeyword(key: QualifiedTag)
    ensures "in" <= key ==> |key| > 2 && TagChar(key[2])
    ensures "notin" <= key ==> |key| > 5 && TagChar(key[5])
  {
    TagShape(key);
    if "in" <= key && |key| > 2 { assert key[2] in key; }
    if "notin" <= key {
      assert |key| == 5 ==> key == "notin" && '/' !in key;
      assert |key| > 5;
      assert key[5] in key;
    }
  }

  lemma KeyStandsAlone(key: QualifiedTag, tail: string)
    requires FollowsPredicate(tail)
    ensures OperatorTail(key, tail) == Ok(None)
  {
    if tail != "" {
      assert SkipWhitespace(tail) == SkipWhitespace(tail[1..]) == tail[1..];
    }
  }

  function Normalise(p: Predicate): Predicate {
    match p
    case In(key, values) => In(key, Normal(StringLe, values))
    case NotIn(key, values) => NotIn(key, Normal(StringLe, values))
    case _ => p
  }

  lemma NormalValuesAdmissible(values: seq<string>)
    requires forall v | v in values :: AdmissibleValue(v)
    ensures forall v | v in Normal(StringLe, values) :: AdmissibleValue(v)
  {
    StringOrderIsTotal();
    NormalIsStrict(StringLe, values);
    forall v | v in Normal(StringLe, values) ensures v in values {
      assert v in Elements(Normal(StringLe, values));
    }
  }

  lemma SetListParses(values: seq<string>, tail: string)
    requires 1 <= |values| <= SELECTOR_MAX_SET_VALUES && forall v | v in values :: AdmissibleValue(v)
    ensures SetList(SkipWhitespace(" (" + (CanonicalSet(values) + (")" + tail)))) == Ok((Normal(StringLe, values), tail))
  {
    hide Items, Normal, AdmissibleValue, CanonicalSet, Value;
    var items := CanonicalSet(values) + (")" + tail);
    var s := " (" + items;
    assert s[1..] == "(" + items;
    assert SkipWhitespace(s) == SkipWhitespace("(" + items) == "(" + items;
    assert ("(" + items)[1..] == items;
    NormalValuesAdmissible(values);
    SetTextParses(Normal(StringLe, values), tail, 0);
    CanonicalSetIsItsText(values);
  }

  lemma CanonicalSetIsItsText(values: seq<string>)
    ensures CanonicalSet(values) == Join(Map(Escape, Normal(StringLe, values)), ",")
  {
  }

  lemma InParses(key: QualifiedTag, values: seq<string>, tail: string)
    requires 1 <= |values| <= SELECTOR_MAX_SET_VALUES && forall v | v in values :: AdmissibleValue(v)
    ensures var after := " in" + " (" + CanonicalSet(values) + ")" + tail;
            OperatorTail(key, after) == Ok(Some((In(key, Normal(StringLe, values)), tail))) && after[0] == ' '
  {
    hide SetList, CanonicalSet, Normal, AdmissibleValue, Value;
    var list := " (" + (CanonicalSet(values) + (")" + tail));
    var s := " in" + " (" + CanonicalSet(values) + ")" + tail;
    assert s == " in" + list;
    assert s[1..] == "in" + list;
    assert SkipWhitespace(s) == SkipWhitespace("in" + list) == "in" + list;
    assert ("in" + list)[2..] == list;
    SetListParses(values, tail);
  }

  lemma NotInParses(key: QualifiedTag, values: seq<string>, tail: string)
    requires 1 <= |values| <= SELECTOR_MAX_SET_VALUES && forall v | v in values :: AdmissibleValue(v)
    ensures var after := " notin" + " (" + CanonicalSet(values) + ")" + tail;
            OperatorTail(key, after) == Ok(Some((NotIn(key, Normal(StringLe, values)), tail))) && after[0] == ' '
  {
    hide SetList, CanonicalSet, Normal, AdmissibleValue, Value;
    var list := " (" + (CanonicalSet(values) + (")" + tail));
    var s := " notin" + " (" + CanonicalSet(values) + ")" + tail;
    assert s == " notin" + list;
    assert s[1..] == "notin" + list;
    assert SkipWhitespace(s) == SkipWhitespace("notin" + list) == "notin" + list;
    assert ("notin" + list)[5..] == list;
    SetListParses(values, tail);
  }

  lemma EqualsParses(key: QualifiedTag, value: string, tail: string)
    requires AdmissibleValue(value) && EndsValue(tail, false)
    ensures OperatorTail(key, "=" + (Escape(value) + tail)) == Ok(Some((Equals(key, value), tail)))
  {
    hide Value, Escape, AdmissibleValue, EndsValue;
    var s := "=" + (Escape(value) + tail);
    assert SkipWhitespace(s) == s && s[1..] == Escape(value) + tail;
    EscapedValueIsRead(value, tail, false);
  }

  lemma NotEqualsParses(key: QualifiedTag, value: string, tail: string)
    requires AdmissibleValue(value) && EndsValue(tail, false)
    ensures OperatorTail(key, "!=" + (Escape(value) + tail)) == Ok(Some((NotEquals(key, value), tail)))
  {
    hide Value, Escape, AdmissibleValue, EndsValue;
    var s := "!=" + (Escape(value) + tail);
    assert SkipWhitespace(s) == s && s[2..] == Escape(value) + tail;
    EscapedValueIsRead(value, tail, false);
  }

  lemma CanonicalIsKeyThenOperator(p: Predicate, tail: string)
    ensures Canonical(p) + tail == (if p.NotExists? then "!" else "") + (p.key + (OperatorText(p) + tail))
  {
    hide OperatorText;
  }

  lemma OperatorParses(p: Predicate, tail: string)
    requires Admissible(p) && FollowsPredicate(tail) && !p.NotExists?
    ensures OperatorTail(p.key, OperatorText(p) + tail) == Ok(if p.Exists? then None else Some((Normalise(p), tail)))
    ensures OperatorText(p) + tail == "" || EndsKey((OperatorText(p) + tail)[0])
  {
    hide OperatorTail, Escape, CanonicalSet, AdmissibleValue, Normal, InSelectorKeySpace;
    match p {
      case Exists(key) =>
        KeyStandsAlone(key, tail);
        assert "" + tail == tail;
      case Equals(key, value) =>
        EqualsParses(key, value, tail);
        assert ("=" + Escape(value)) + tail == "=" + (Escape(value) + tail);
      case NotEquals(key, value) =>
        NotEqualsParses(key, value, tail);
        assert ("!=" + Escape(value)) + tail == "!=" + (Escape(value) + tail);
      case In(key, values) =>
        InParses(key, values, tail);
      case NotIn(key, values) =>
        NotInParses(key, values, tail);
    }
  }

  lemma KeyThenOperator(key: QualifiedTag, after: string)
    requires InSelectorKeySpace(key)
    requires after == "" || EndsKey(after[0])
    ensures OnePredicate(key + after) ==
            match OperatorTail(key, after)
            case Err(error) => Err(error)
            case Ok(None) => Ok((Exists(key), after))
            case Ok(Some(found)) => Ok(found)
    ensures OnePredicate("!" + (key + after)) == Ok((NotExists(key), after))
  {
    hide OperatorTail, Key, InSelectorKeySpace;
    TagShape(key);
    assert key[0] in key && (key + after)[0] == key[0];
    KeyParses(key, after);
    assert ("!" + (key + after))[1..] == key + after;
  }

  /** Printing one predicate and parsing it back yields its normal form and leaves what follows. */
  lemma CanonicalParses(p: Predicate, tail: string)
    requires Admissible(p) && FollowsPredicate(tail)
    ensures OnePredicate(Canonical(p) + tail) == Ok((Normalise(p), tail))
  {
    hide OnePredicate, Canonical, OperatorTail, InSelectorKeySpace, AdmissibleValue, Normal, OperatorText;
    CanonicalIsKeyThenOperator(p, tail);
    if p.NotExists? {
      NotExistsText(p, tail);
      KeyThenOperator(p.key, tail);
    } else {
      OperatorParses(p, tail);
      KeyThenOperator(p.key, OperatorText(p) + tail);
      assert "" + (p.key + (OperatorText(p) + tail)) == p.key + (OperatorText(p) + tail);
      if p.Exists? { ExistsText(p, tail); }
    }
  }

  lemma NotExistsText(p: Predicate, tail: string)
    requires p.NotExists?
    ensures OperatorText(p) + tail == tail
  {
  }

  lemma ExistsText(p: Predicate, tail: string)
    requires p.Exists?
    ensures OperatorText(p) + tail == tail
  {
  }

  lemma StreamSkipsSpace(s: string, bounded: bool, count: nat)
    ensures Stream(" " + s, bounded, count) == Stream(s, bounded, count)
  {
    assert (" " + s)[1..] == s;
    assert SkipWhitespace(" " + s) == SkipWhitespace(s);
  }

  lemma StreamReads(s: string, bounded: bool, count: nat, p: Predicate, tail: string)
    requires s != "" && !IsWhitespace(s[0]) && (bounded ==> count < SELECTOR_MAX_PREDICATES)
    requires OnePredicate(s) == Ok((p, tail))
    ensures Stream(s, bounded, count) ==
            match Stream(tail, bounded, count + 1) { case Ok(ps) => Ok([p] + ps) case Err(error) => Err(error) }
  {
    hide OnePredicate;
  }

  lemma PredicateStart(s: string)
    requires StartsPredicate(s)
    ensures s != "" && !IsWhitespace(s[0]) && FollowsPredicate(" " + s)
  {
    assert (" " + s)[1..] == s;
  }

  /** Printing a predicate list and parsing it back yields the normal forms in order. */
  lemma {:induction false} TextParses(ps: seq<Predicate>, bounded: bool, count: nat)
    requires forall p | p in ps :: Admissible(p)
    requires bounded ==> count + |ps| <= SELECTOR_MAX_PREDICATES
    ensures Stream(Join(Map(Canonical, ps), " "), bounded, count) == Ok(Map(Normalise, ps))
    decreases |ps|
  {
    hide *;
    if ps == [] {
      EmptyTextParses(bounded, count);
      assert Map(Canonical, ps) == [] && Map(Normalise, ps) == [];
    } else {
      var more := Join(Map(Canonical, ps[1..]), " ");
      var tail := if |ps| == 1 then "" else " " + more;
      JoinedText(ps);
      assert ps[0] in ps;
      CanonicalStarts(ps[0], tail);
      PredicateStart(Canonical(ps[0]) + tail);
      TailFollows(ps);
      CanonicalParses(ps[0], tail);
      StreamReads(Canonical(ps[0]) + tail, bounded, count, Normalise(ps[0]), tail);
      if |ps| == 1 {
        EmptyTextParses(bounded, count + 1);
        assert Map(Normalise, ps) == [Normalise(ps[0])] + [];
      } else {
        StreamSkipsSpace(more, bounded, count + 1);
        TextParses(ps[1..], bounded, count + 1);
        assert Map(Normalise, ps) == [Normalise(ps[0])] + Map(Normalise, ps[1..]);
      }
    }
  }

  lemma EmptyTextParses(bounded: bool, count: nat)
    ensures Join([], " ") == "" && Stream("", bounded, count) == Ok([])
  {
  }

  lemma TailFollows(ps: seq<Predicate>)
    requires ps != []
    ensures FollowsPredicate(if |ps| == 1 then "" else " " + Join(Map(Canonical, ps[1..]), " "))
  {
    hide *;
    if |ps| > 1 {
      RestStarts(ps[1..]);
      PredicateStart(Join(Map(Canonical, ps[1..]), " "));
    } else {
      NothingFollows();
    }
  }

  lemma NothingFollows()
    ensures FollowsPredicate("")
  {
  }

  lemma JoinedText(ps: seq<Predicate>)
    requires ps != []
    ensures var more := Join(Map(Canonical, ps[1..]), " ");
            Join(Map(Canonical, ps), " ") == Canonical(ps[0]) + (if |ps| == 1 then "" else " " + more)
  {
    hide *;
    var texts := Map(Canonical, ps);
    assert texts[1..] == Map(Canonical, ps[1..]);
    if |ps| == 1 {
      assert texts == [Canonical(ps[0])];
      JoinOne(texts[0], " ");
    } else {
      JoinMore(texts, " ");
    }
  }

  lemma RestStarts(ps: seq<Predicate>)
    requires ps != []
    ensures StartsPredicate(Join(Map(Canonical, ps), " "))
  {
    hide *;
    JoinedText(ps);
    CanonicalStarts(ps[0], if |ps| == 1 then "" else " " + Join(Map(Canonical, ps[1..]), " "));
  }

  // ---- normal forms ----

  lemma NormaliseKeepsMeaning(p: Predicate, lookup: string -> Option<string>)
    ensures Matches(Normalise(p), lookup) <==> Matches(p, lookup)
  {
    if p.In? || p.NotIn? {
      StringOrderIsTotal();
      NormalIsStrict(StringLe, p.values);
      forall v ensures v in Normal(StringLe, p.values) <==> v in p.values {
        assert v in Elements(Normal(StringLe, p.values)) <==> v in Elements(p.values);
      }
    }
  }

  lemma NormaliseKeepsText(p: Predicate)
    ensures Canonical(Normalise(p)) == Canonical(p)
  {
    if p.In? || p.NotIn? {
      StringOrderIsTotal();
      NormalIsStrict(StringLe, p.values);
      NormalOfStrict(StringLe, Normal(StringLe, p.values));
    }
  }

  /** The canonical text of a predicate is a complete invariant of its normal form. */
  lemma TextIdentifiesPredicate(p: Predicate, q: Predicate)
    requires Admissible(p) && Admissible(q)
    ensures Canonical(p) == Canonical(q) <==> Normalise(p) == Normalise(q)
  {
    assert Canonical(p) + "" == Canonical(p) && Canonical(q) + "" == Canonical(q);
    CanonicalParses(p, "");
    CanonicalParses(q, "");
    NormaliseKeepsText(p);
    NormaliseKeepsText(q);
  }

  lemma {:induction false} Representatives(texts: seq<string>, ps: seq<Predicate>) returns (chosen: seq<Predicate>)
    requires forall t | t in texts :: t in Map(Canonical, ps)
    ensures Map(Canonical, chosen) == texts
    ensures forall p | p in chosen :: p in ps
  {
    hide Canonical;
    if texts == [] {
      chosen := [];
    } else {
      assert texts[0] in texts;
      var i :| 0 <= i < |ps| && Map(Canonical, ps)[i] == texts[0];
      var rest := Representatives(texts[1..], ps);
      chosen := [ps[i]] + rest;
      assert Map(Canonical, chosen) == [texts[0]] + Map(Canonical, rest);
      assert texts == [texts[0]] + texts[1..];
    }
  }

  /** The sorted, deduplicated text of a list reparses to one normal predicate per text. */
  lemma CanonicalTextParses(ps: seq<Predicate>, bounded: bool) returns (chosen: seq<Predicate>)
    requires forall p | p in ps :: Admissible(p)
    requires bounded ==> |ps| <= SELECTOR_MAX_PREDICATES
    ensures Map(Canonical, chosen) == Normal(StringLe, Map(Canonical, ps))
    ensures forall p | p in chosen :: p in ps
    ensures Stream(CanonicalText(ps), bounded, 0) == Ok(Map(Normalise, chosen))
  {
    var texts := Normal(StringLe, Map(Canonical, ps));
    StringOrderIsTotal();
    NormalIsStrict(StringLe, Map(Canonical, ps));
    forall t | t in texts ensures t in Map(Canonical, ps) {
      assert t in Elements(texts);
    }
    chosen := Representatives(texts, ps);
    assert |chosen| == |texts| <= |ps|;
    TextParses(chosen, bounded, 0);
  }

  lemma NormalisedText(chosen: seq<Predicate>)
    ensures Map(Canonical, Map(Normalise, chosen)) == Map(Canonical, chosen)
  {
    forall i | 0 <= i < |chosen| ensures Canonical(Normalise(chosen[i])) == Canonical(chosen[i]) {
      NormaliseKeepsText(chosen[i]);
    }
  }

  // ---- main results ----

  /** Reparsing the canonical text never fails: `parse` rejects an input only for its own sake,
      the predicate grammar, or a canonical text that escaping made too long. */
  lemma ReparseNeverFails(value: string)
    ensures Parse(value).Ok? <==>
            && value != "" && ByteLength(value) <= SELECTOR_INPUT_MAX_BYTES
            && Stream(value, true, 0).Ok? && Stream(value, true, 0).value != []
            && ByteLength(CanonicalText(Stream(value, true, 0).value)) <= SELECTOR_INPUT_MAX_BYTES
  {
    if Stream(value, true, 0).Ok? {
      var ps := Stream(value, true, 0).value;
      StreamIsAdmissible(value, true, 0);
      var _ := CanonicalTextParses(ps, false);
    }
  }

  lemma {:induction false} PlainTextIsItsLength(s: string)
    requires forall c | c in s :: TagChar(c)
    ensures ByteLength(s) == |s|
  {
    if s != "" {
      assert s[0] in s && forall c | c in s[1..] :: c in s;
      PlainTextIsItsLength(s[1..]);
    }
  }

  lemma KeyIsItsText(key: QualifiedTag)
    ensures Map(Canonical, [Exists(key)]) == [key] && Map(Normalise, [Exists(key)]) == [Exists(key)]
  {
    hide ValidTag;
    assert Canonical(Exists(key)) == key;
  }

  lemma OneTextIsNormal(text: string)
    ensures Normal(StringLe, [text]) == [text]
  {
    StringOrderIsTotal();
    NormalOfStrict(StringLe, [text]);
  }

  /** Every label key is a selector by itself: it asks for the key and is its own canonical text. */
  lemma LabelKeysAreSelectors(key: QualifiedTag)
    requires InSelectorKeySpace(key)
    ensures Parse(key) == Ok(Selector(key, [Exists(key)]))
  {
    hide Stream, ByteLength, Canonical, Normal, InSelectorKeySpace, Join, LexLe, ValidTag, Normalise;
    var ps := [Exists(key)];
    TagShape(key);
    PlainTextIsItsLength(key);
    KeyLength(key);
    KeyIsItsText(key);
    OneTextIsNormal(key);
    JoinOne(key, " ");
    TextParses(ps, true, 0);
    TextParses(ps, false, 0);
  }

  lemma KeyLength(key: QualifiedTag)
    ensures 0 < |key| <= SELECTOR_INPUT_MAX_BYTES
  {
  }

  /** An accepted selector, so the results below speak of something. */
  lemma SomeSelectorIsAccepted()
    ensures Parse("a/labels/a").Ok?
  {
    hide Parse, ValidTag, InSelectorKeySpace;
    ALabelKey();
    LabelKeysAreSelectors("a/labels/a");
  }

  /** The canonical form is a fixed point: for every accepted input the canonical text is itself
      accepted, parses to the very same selector, and is the text its predicates print. */
  lemma CanonicalIsFixedPoint(value: string)
    requires Parse(value).Ok?
    ensures var selector := Parse(value).value;
            && Parse(selector.canonical) == Ok(selector)
            && Stream(selector.canonical, false, 0) == Ok(selector.predicates)
            && CanonicalText(selector.predicates) == selector.canonical
            && Join(Map(Canonical, selector.predicates), " ") == selector.canonical
  {
    hide Stream, Canonical, Join, ByteLength, LexLe;
    var ps := Stream(value, true, 0).value;
    StreamIsAdmissible(value, true, 0);
    var chosen := CanonicalTextParses(ps, false);
    var selector := Parse(value).value;
    var texts := Normal(StringLe, Map(Canonical, ps));
    NormalisedText(chosen);
    assert Map(Canonical, selector.predicates) == texts;
    StringOrderIsTotal();
    NormalIsStrict(StringLe, Map(Canonical, ps));
    NormalOfStrict(StringLe, texts);
    TextParses(chosen, true, 0);
    RestStarts(chosen);
  }

  /** The stored predicates are exactly the normal forms of the predicates the caller wrote. */
  lemma StoredPredicates(value: string)
    requires Parse(value).Ok?
    ensures Elements(Parse(value).value.predicates) == Elements(Map(Normalise, Stream(value, true, 0).value))
  {
    var ps := Stream(value, true, 0).value;
    StreamIsAdmissible(value, true, 0);
    var chosen := CanonicalTextParses(ps, false);
    StringOrderIsTotal();
    NormalIsStrict(StringLe, Map(Canonical, ps));
    RepresentativesCover(chosen, ps);
  }

  lemma RepresentativesCover(chosen: seq<Predicate>, ps: seq<Predicate>)
    requires forall p | p in ps :: Admissible(p)
    requires forall p | p in chosen :: p in ps
    requires Elements(Map(Canonical, chosen)) == Elements(Map(Canonical, ps))
    ensures Elements(Map(Normalise, chosen)) == Elements(Map(Normalise, ps))
  {
    hide Canonical, Normalise, Admissible;
    forall q | q in Map(Normalise, chosen) ensures q in Map(Normalise, ps) {
      var i :| 0 <= i < |chosen| && Map(Normalise, chosen)[i] == q;
      assert chosen[i] in chosen;
      var j :| 0 <= j < |ps| && ps[j] == chosen[i];
      assert Map(Normalise, ps)[j] == q;
    }
    forall q | q in Map(Normalise, ps) ensures q in Map(Normalise, chosen) {
      var j :| 0 <= j < |ps| && Map(Normalise, ps)[j] == q;
      assert ps[j] in ps;
      var i := SameText(chosen, ps, j);
      TextIdentifiesPredicate(chosen[i], ps[j]);
      assert Map(Normalise, chosen)[i] == q;
    }
  }

  lemma SameText(chosen: seq<Predicate>, ps: seq<Predicate>, j: nat) returns (i: nat)
    requires j < |ps|
    requires forall p | p in ps :: Admissible(p)
    requires forall p | p in chosen :: p in ps
    requires Elements(Map(Canonical, chosen)) == Elements(Map(Canonical, ps))
    ensures i < |chosen| && Canonical(chosen[i]) == Canonical(ps[j]) && Admissible(chosen[i])
  {
    hide Canonical, Admissible;
    assert Map(Canonical, ps)[j] in Elements(Map(Canonical, chosen));
    i :| 0 <= i < |chosen| && Map(Canonical, chosen)[i] == Canonical(ps[j]);
    assert chosen[i] in chosen;
  }

  /** Canonicalisation preserves meaning under every label lookup. */
  lemma CanonicalKeepsMeaning(value: string, lookup: string -> Option<string>)
    requires Parse(value).Ok?
    ensures MatchesAll(Parse(value).value.predicates, lookup) <==> MatchesAll(Stream(value, true, 0).value, lookup)
  {
    var ps := Stream(value, true, 0).value;
    var stored := Parse(value).value.predicates;
    StoredPredicates(value);
    var wanted := Map(Normalise, ps);
    forall p | p in ps ensures Normalise(p) in stored && (Matches(p, lookup) <==> Matches(Normalise(p), lookup)) {
      var j :| 0 <= j < |ps| && ps[j] == p;
      assert wanted[j] in Elements(wanted);
      NormaliseKeepsMeaning(p, lookup);
    }
    forall q | q in stored ensures exists p :: p in ps && Normalise(p) == q {
      assert q in Elements(stored) && q in wanted;
      var j :| 0 <= j < |ps| && wanted[j] == q;
      assert ps[j] in ps;
    }
  }

  /** Two selectors have the same canonical text exactly when their normalised predicate sets agree. */
  lemma CanonicalIdentifies(a: string, b: string)
    requires Parse(a).Ok? && Parse(b).Ok?
    ensures Parse(a).value.canonical == Parse(b).value.canonical <==>
            Elements(Map(Normalise, Stream(a, true, 0).value)) == Elements(Map(Normalise, Stream(b, true, 0).value))
    ensures Parse(a).value.canonical == Parse(b).value.canonical <==> Parse(a) == Parse(b)
  {
    StoredPredicates(a);
    StoredPredicates(b);
    CanonicalIsFixedPoint(a);
    CanonicalIsFixedPoint(b);
    var pa, pb := Parse(a).value.predicates, Parse(b).value.predicates;
    if Elements(pa) == Elements(pb) {
      StringOrderIsTotal();
      ElementsOfMap(pa, pb);
      NormalIdentifiesSets(StringLe, Map(Canonical, pa), Map(Canonical, pb));
    }
  }

  lemma ElementsOfMap(a: seq<Predicate>, b: seq<Predicate>)
    requires Elements(a) == Elements(b)
    ensures Elements(Map(Canonical, a)) == Elements(Map(Canonical, b))
  {
    forall t | t in Map(Canonical, a) ensures t in Map(Canonical, b) {
      var i :| 0 <= i < |a| && Map(Canonical, a)[i] == t;
      assert a[i] in Elements(b);
      var j :| 0 <= j < |b| && b[j] == a[i];
      assert Map(Canonical, b)[j] == t;
    }
    forall t | t in Map(Canonical, b) ensures t in Map(Canonical, a) {
      var i :| 0 <= i < |b| && Map(Canonical, b)[i] == t;
      assert b[i] in Elements(a);
      var j :| 0 <= j < |a| && a[j] == b[i];
      assert Map(Canonical, a)[j] == t;
    }
  }
}
