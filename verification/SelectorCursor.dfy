/**
 The cursor parser itself: a position into the input that the parsing routines advance.
 Every method is proved against the grammar function of the same routine, error for error.
 The position counts characters; the byte offset of the program is the byte length of the
 text before it.
 */
module SelectorCursor {
  import opened Results
  import opened Tags
  import opened SelectorGrammar

  class SelectorParser {
    const input: string
    var position: nat

    ghost predicate Valid()
      reads this
    {
      position <= |input|
    }

    function Rest(): string
      requires Valid()
      reads this
    {
      input[position..]
    }

    constructor (input: string)
      ensures Valid() && this.input == input && Rest() == input
    {
      this.input := input;
      position := 0;
    }

    function Peek(): (c: Option<char>)
      requires Valid()
      reads this
      ensures c.None? <==> Rest() == ""
      ensures c.Some? ==> c.value == Rest()[0]
    {
      if position < |input| then Some(input[position]) else None
    }

    method Advance()
      requires Valid()
      modifies this
      ensures Valid() && position == if old(position) < |input| then old(position) + 1 else old(position)
      ensures Rest() == if old(Rest()) == "" then "" else old(Rest())[1..]
    {
      if Peek().Some? {
        position := position + 1;
      }
    }

    method SkipSpace()
      requires Valid()
      modifies this
      ensures Valid() && position >= old(position)
      ensures Rest() == SkipWhitespace(old(Rest()))
    {
      while Peek().Some? && IsWhitespace(Peek().value)
        invariant Valid() && position >= old(position)
        invariant SkipWhitespace(Rest()) == SkipWhitespace(old(Rest()))
        decreases |input| - position
      {
        Advance();
      }
    }

    method ParseKey() returns (r: Result<QualifiedTag>)
      requires Valid()
      modifies this
      ensures Valid() && position >= old(position)
      ensures match Key(old(Rest()))
              case Ok((tag, rest)) => r == Ok(tag) && Rest() == rest && position > old(position)
              case Err(error) => r == Err(error)
    {
      ghost var before := Rest();
      var start := position;
      while Peek().Some? && !EndsKey(Peek().value)
        invariant start <= position <= |input|
        invariant KeyEnd(before) == position - start + KeyEnd(Rest())
        decreases |input| - position
      {
        Advance();
      }
      assert input[start..position] == before[..KeyEnd(before)];
      assert Rest() == before[KeyEnd(before)..];
      r := ParseSelectorKey(input[start..position]);
    }

    method ParseValue(inList: bool) returns (r: Result<string>)
      requires Valid()
      modifies this
      ensures Valid() && position >= old(position)
      ensures match Value(old(Rest()), inList)
              case Ok((value, rest)) => r == Ok(value) && Rest() == rest
              case Err(error) => r == Err(error)
    {
      ghost var before := Rest();
      var value := "";
      PrependNothing(RawValue(before, inList));
      while Peek().Some?
        invariant Valid() && position >= old(position)
        invariant RawValue(before, inList) == Prepended(value, RawValue(Rest(), inList))
        decreases |input| - position
      {
        var c := Peek().value;
        ghost var rest := Rest();
        if c == '\\' {
          Advance();
          if Peek().None? || Unescape(Peek().value).None? {
            return Err(InvalidInputError("selector escape"));
          }
          var escaped := Unescape(Peek().value).value;
          Advance();
          assert Rest() == rest[2..];
          RawValueTurn(rest, inList);
          PrependOneMore(value, escaped, RawValue(Rest(), inList));
          value := value + [escaped];
        } else if IsWhitespace(c) || (inList && (c == ',' || c == ')')) {
          break;
        } else if IsSpecial(c) {
          return Err(InvalidInputError("selector value"));
        } else {
          Advance();
          RawValueTurn(rest, inList);
          PrependOneMore(value, c, RawValue(Rest(), inList));
          value := value + [c];
        }
      }
      assert RawValue(Rest(), inList) == Ok(("", Rest()));
      assert value + "" == value;
      if !BoundedValue(value) {
        return Err(InvalidInputError("selector value"));
      }
      return Ok(value);
    }

    method ParseSet() returns (r: Result<seq<string>>)
      requires Valid()
      modifies this
      ensures Valid() && position >= old(position)
      ensures match SetList(old(Rest()))
              case Ok((values, rest)) => r == Ok(values) && Rest() == rest
              case Err(error) => r == Err(error)
    {
      hide Items, Value, SkipWhitespace, Prepended;
      if Peek() != Some('(') {
        return Err(InvalidInputError("selector set"));
      }
      Advance();
      ghost var before := Rest();
      var values := [];
      PrependNothing(Items(before, 0));
      while true
        invariant Valid() && position >= old(position)
        invariant |values| <= SELECTOR_MAX_SET_VALUES
        invariant Items(before, 0) == Prepended(values, Items(Rest(), |values|))
        decreases |input| - position
      {
        ghost var rest := Rest();
        ItemsFail(values, rest);
        SkipSpace();
        if |values| >= SELECTOR_MAX_SET_VALUES {
          return Err(ExhaustedError("selector set values"));
        }
        var value := ParseValue(true);
        if value.Err? {
          return Err(value.error);
        }
        ItemsTurn(values, rest, value.value, Rest());
        SkipSpace();
        values := values + [value.value];
        if Peek() == Some(',') {
          Advance();
        } else if Peek() == Some(')') {
          Advance();
          return Ok(values);
        } else {
          return Err(InvalidInputError("selector set"));
        }
      }
    }

    method ParseOperatorTail(key: QualifiedTag) returns (r: Result<Option<Predicate>>)
      requires Valid()
      modifies this
      ensures Valid() && position >= old(position)
      ensures match OperatorTail(key, old(Rest()))
              case Ok(Some((p, rest))) => r == Ok(Some(p)) && Rest() == rest
              case Ok(None) => r == Ok(None) && Rest() == old(Rest())
              case Err(error) => r == Err(error)
    {
      hide SkipWhitespace, Value, SetList;
      var checkpoint := position;
      SkipSpace();
      if Peek() == Some('=') {
        Advance();
        SkipSpace();
        var value := ParseValue(false);
        return if value.Ok? then Ok(Some(Equals(key, value.value))) else Err(value.error);
      } else if Peek() == Some('!') {
        ghost var rest := Rest();
        Advance();
        if Peek() != Some('=') {
          position := checkpoint;
          return Ok(None);
        }
        Advance();
        assert Rest() == rest[2..];
        SkipSpace();
        var value := ParseValue(false);
        return if value.Ok? then Ok(Some(NotEquals(key, value.value))) else Err(value.error);
      } else if AtKeyword(Rest(), "in") {
        var values := ParseSetAfter("in");
        return if values.Ok? then Ok(Some(In(key, values.value))) else Err(values.error);
      } else if AtKeyword(Rest(), "notin") {
        var values := ParseSetAfter("notin");
        return if values.Ok? then Ok(Some(NotIn(key, values.value))) else Err(values.error);
      }
      position := checkpoint;
      return Ok(None);
    }

    /** Steps over a keyword found at the cursor and reads its set list. */
    method ParseSetAfter(keyword: string) returns (r: Result<seq<string>>)
      requires Valid() && AtKeyword(Rest(), keyword)
      modifies this
      ensures Valid() && position >= old(position)
      ensures match SetList(SkipWhitespace(old(Rest())[|keyword|..]))
              case Ok((values, rest)) => r == Ok(values) && Rest() == rest
              case Err(error) => r == Err(error)
    {
      ghost var before := Rest();
      for i := 0 to |keyword|
        invariant Valid() && position == old(position) + i
        invariant Rest() == before[i..]
      {
        Advance();
      }
      SkipSpace();
      r := ParseSet();
    }

    /** One turn of the predicate loop, at a character that is not whitespace. */
    method ParsePredicate() returns (r: Result<Predicate>)
      requires Valid()
      modifies this
      ensures Valid() && position >= old(position)
      ensures match OnePredicate(old(Rest()))
              case Ok((p, rest)) => r == Ok(p) && Rest() == rest && position > old(position)
              case Err(error) => r == Err(error)
    {
      if Peek() == Some('!') {
        Advance();
        var key := ParseKey();
        return if key.Ok? then Ok(NotExists(key.value)) else Err(key.error);
      }
      var key := ParseKey();
      if key.Err? {
        return Err(key.error);
      }
      var tail := ParseOperatorTail(key.value);
      if tail.Err? {
        return Err(tail.error);
      }
      return Ok(if tail.value.Some? then tail.value.value else Exists(key.value));
    }

    method ParsePredicateStream(bounded: bool) returns (r: Result<seq<Predicate>>)
      requires Valid()
      modifies this
      ensures r == Stream(old(Rest()), bounded, 0)
    {
      hide Stream, OnePredicate, SkipWhitespace;
      ghost var before := Rest();
      var predicates := [];
      PrependListNothing(Stream(before, bounded, 0));
      while true
        invariant Valid()
        invariant Stream(before, bounded, 0) == PrependedList(predicates, Stream(Rest(), bounded, |predicates|))
        decreases |input| - position
      {
        StreamTurn(Rest(), bounded, |predicates|);
        SkipSpace();
        if Peek().None? {
          assert predicates + [] == predicates;
          return Ok(predicates);
        }
        if bounded && |predicates| >= SELECTOR_MAX_PREDICATES {
          return Err(ExhaustedError("selector predicates"));
        }
        var p := ParsePredicate();
        if p.Err? {
          return Err(p.error);
        }
        PrependListOneMore(predicates, p.value, Stream(Rest(), bounded, |predicates| + 1));
        predicates := predicates + [p.value];
      }
    }
  }

  /** What a loop that has already read `prefix` will return. */
  ghost function Prepended<T>(prefix: seq<T>, r: Result<(seq<T>, string)>): Result<(seq<T>, string)> {
    match r { case Ok((more, rest)) => Ok((prefix + more, rest)) case Err(error) => Err(error) }
  }

  ghost function PrependedList<T>(prefix: seq<T>, r: Result<seq<T>>): Result<seq<T>> {
    match r { case Ok(more) => Ok(prefix + more) case Err(error) => Err(error) }
  }

  lemma PrependNothing<T>(r: Result<(seq<T>, string)>)
    ensures Prepended([], r) == r
  {
    if r.Ok? { assert [] + r.value.0 == r.value.0; }
  }

  lemma PrependOneMore<T>(prefix: seq<T>, x: T, r: Result<(seq<T>, string)>)
    ensures Prepended(prefix, Prepended([x], r)) == Prepended(prefix + [x], r)
  {
    if r.Ok? { assert prefix + ([x] + r.value.0) == prefix + [x] + r.value.0; }
  }

  lemma PrependListOneMore<T>(prefix: seq<T>, x: T, r: Result<seq<T>>)
    ensures PrependedList(prefix, PrependedList([x], r)) == PrependedList(prefix + [x], r)
  {
    if r.Ok? { assert prefix + ([x] + r.value) == prefix + [x] + r.value; }
  }

  lemma PrependListNothing<T>(r: Result<seq<T>>)
    ensures PrependedList([], r) == r
  {
    if r.Ok? { assert [] + r.value == r.value; }
  }

  lemma RawValueTurn(s: string, inList: bool)
    requires s != ""
    ensures s[0] == '\\' && |s| > 1 && Unescape(s[1]).Some? ==>
              RawValue(s, inList) == Prepended([Unescape(s[1]).value], RawValue(s[2..], inList))
    ensures !IsWhitespace(s[0]) && !IsSpecial(s[0]) ==>
              RawValue(s, inList) == Prepended([s[0]], RawValue(s[1..], inList))
  {
  }

  /** One more value of a set list, behind those already read. */
  lemma ItemsTurn(values: seq<string>, s: string, value: string, rest: string)
    requires |values| < SELECTOR_MAX_SET_VALUES
    requires Value(SkipWhitespace(s), true) == Ok((value, rest))
    ensures var next := SkipWhitespace(rest);
            var all := Prepended(values, Items(s, |values|));
            && (next != "" && next[0] == ',' ==> all == Prepended(values + [value], Items(next[1..], |values| + 1)))
            && (next != "" && next[0] == ')' ==> all == Ok((values + [value], next[1..])))
            && (next == "" || (next[0] != ',' && next[0] != ')') ==> all == Err(InvalidInputError("selector set")))
  {
    hide Value;
    var next := SkipWhitespace(rest);
    if next != "" && next[0] == ',' {
      assert Items(s, |values|) == Prepended([value], Items(next[1..], |values| + 1));
      PrependOneMore(values, value, Items(next[1..], |values| + 1));
    }
  }

  lemma ItemsFail(values: seq<string>, s: string)
    ensures |values| >= SELECTOR_MAX_SET_VALUES ==>
              Prepended(values, Items(s, |values|)) == Err(ExhaustedError("selector set values"))
    ensures |values| < SELECTOR_MAX_SET_VALUES && Value(SkipWhitespace(s), true).Err? ==>
              Prepended(values, Items(s, |values|)) == Err(Value(SkipWhitespace(s), true).error)
  {
    hide Value;
  }

  lemma StreamTurn(s: string, bounded: bool, count: nat)
    ensures var rest := SkipWhitespace(s);
            && (rest == "" ==> Stream(s, bounded, count) == Ok([]))
            && (rest != "" && bounded && count >= SELECTOR_MAX_PREDICATES ==>
                  Stream(s, bounded, count) == Err(ExhaustedError("selector predicates")))
            && (rest != "" && !(bounded && count >= SELECTOR_MAX_PREDICATES) ==>
                  match OnePredicate(rest)
                  case Ok((p, tail)) => Stream(s, bounded, count) == PrependedList([p], Stream(tail, bounded, count + 1))
                  case Err(error) => Stream(s, bounded, count) == Err(error))
  {
    hide OnePredicate;
  }

  /** `Selector::parse` as the program runs it: two cursor passes around the canonical text. */
  method ParseSelector(value: string) returns (r: Result<Selector>)
    ensures r == Parse(value)
  {
    hide Stream, CanonicalText, ByteLength;
    if value == "" || ByteLength(value) > SELECTOR_INPUT_MAX_BYTES {
      return Err(InvalidInputError("selector input"));
    }
    var parser := new SelectorParser(value);
    var predicates := parser.ParsePredicateStream(true);
    if predicates.Err? {
      return Err(predicates.error);
    }
    if predicates.value == [] {
      return Err(InvalidInputError("selector input"));
    }
    var canonical := CanonicalText(predicates.value);
    if ByteLength(canonical) > SELECTOR_INPUT_MAX_BYTES {
      return Err(InvalidInputError("selector input"));
    }
    var second := new SelectorParser(canonical);
    var reparsed := second.ParsePredicateStream(false);
    return if reparsed.Ok? then Ok(Selector(canonical, reparsed.value)) else Err(reparsed.error);
  }
}
