/**
 The selector language as functions on text: one function per parsing routine, each from the
 unread text to a result and the text left unread.  `SelectorCursor` is the cursor that
 computes them; `SelectorCanonical` proves the canonical form.
 */
module SelectorGrammar {
  import opened Ordering
  import opened Results
  import opened Tags

  const SELECTOR_INPUT_MAX_BYTES := 1024
  const SELECTOR_MAX_PREDICATES := 16
  const SELECTOR_MAX_SET_VALUES := 16
  const LABEL_VALUE_MAX_BYTES := 256

  datatype Predicate =
    | Exists(key: QualifiedTag)
    | NotExists(key: QualifiedTag)
    | Equals(key: QualifiedTag, value: string)
    | NotEquals(key: QualifiedTag, value: string)
    | In(key: QualifiedTag, values: seq<string>)
    | NotIn(key: QualifiedTag, values: seq<string>)

  datatype Selector = Selector(canonical: string, predicates: seq<Predicate>)

  /** The UTF-8 width of one scalar value (section 3 of RFC 3629). */
  function Utf8Width(c: char): nat {
    if c as int < 0x80 then 1 else if c as int < 0x800 then 2 else if c as int < 0x10000 then 3 else 4
  }

  function ByteLength(s: string): (n: nat) {
    if s == "" then 0 else Utf8Width(s[0]) + ByteLength(s[1..])
  }

  /** `char::is_whitespace`: the Unicode White_Space property. */
  predicate IsWhitespace(c: char) {
    var n := c as int;
    || 0x9 <= n <= 0xD || n == 0x20 || n == 0x85 || n == 0xA0 || n == 0x1680
    || 0x2000 <= n <= 0x200A || n == 0x2028 || n == 0x2029 || n == 0x202F || n == 0x205F || n == 0x3000
  }

  // ---- evaluation ----

  predicate Matches(p: Predicate, lookup: string -> Option<string>) {
    var found := lookup(p.key);
    match p
    case Exists(_) => found.Some?
    case NotExists(_) => found.None?
    case Equals(_, value) => found == Some(value)
    case NotEquals(_, value) => found.None? || found.value != value
    case In(_, values) => found.Some? && found.value in values
    case NotIn(_, values) => found.None? || found.value !in values
  }

  predicate MatchesAll(ps: seq<Predicate>, lookup: string -> Option<string>) {
    forall p | p in ps :: Matches(p, lookup)
  }

  /** What the operators mean, each by `Equals`: the negated ones are the complements, also where the label is missing. */
  lemma OperatorsMean(key: QualifiedTag, value: string, values: seq<string>, lookup: string -> Option<string>)
    ensures Matches(Equals(key, value), lookup) <==> lookup(key) == Some(value)
    ensures Matches(NotEquals(key, value), lookup) <==> !Matches(Equals(key, value), lookup)
    ensures Matches(In(key, values), lookup) <==> exists v | v in values :: Matches(Equals(key, v), lookup)
    ensures Matches(NotIn(key, values), lookup) <==> !Matches(In(key, values), lookup)
    ensures Matches(Exists(key), lookup) <==> exists v :: Matches(Equals(key, v), lookup)
    ensures Matches(NotExists(key), lookup) <==> !Matches(Exists(key), lookup)
  {
    var found := lookup(key);
    if found.Some? {
      assert Matches(Equals(key, found.value), lookup);
    }
  }

  /** Predicates narrow the selection: all of them must match, and none asks for nothing. */
  lemma PredicatesNarrow(p: Predicate, ps: seq<Predicate>, lookup: string -> Option<string>)
    ensures MatchesAll([], lookup)
    ensures MatchesAll([p] + ps, lookup) <==> Matches(p, lookup) && MatchesAll(ps, lookup)
  {
    hide Matches;
    assert p in [p] + ps && forall q | q in ps :: q in [p] + ps;
  }

  // ---- printing ----

  /** The characters a value may hold only escaped, besides whitespace. */
  predicate IsSpecial(c: char) {
    c == '\\' || c == ',' || c == '(' || c == ')' || c == '=' || c == '!'
  }

  function EscapeChar(c: char): string {
    if c == ' ' then "\\ "
    else if c == '\t' then "\\t"
    else if c == '\n' then "\\n"
    else if c == '\r' then "\\r"
    else if IsSpecial(c) then ['\\', c]
    else [c]
  }

  function Escape(value: string): string {
    if value == "" then "" else EscapeChar(value[0]) + Escape(value[1..])
  }

  function Unescape(escaped: char): Option<char> {
    if escaped == ' ' then Some(' ')
    else if escaped == 't' then Some('\t')
    else if escaped == 'n' then Some('\n')
    else if escaped == 'r' then Some('\r')
    else if IsSpecial(escaped) then Some(escaped)
    else None
  }

  function Map<A, B>(f: A -> B, s: seq<A>): (r: seq<B>)
    ensures |r| == |s|
    ensures forall i | 0 <= i < |s| :: r[i] == f(s[i])
  {
    seq(|s|, i requires 0 <= i < |s| => f(s[i]))
  }

  function Join(parts: seq<string>, separator: string): string {
    if parts == [] then ""
    else if |parts| == 1 then parts[0]
    else parts[0] + separator + Join(parts[1..], separator)
  }

  function CanonicalSet(values: seq<string>): string {
    Join(Map(Escape, Normal(StringLe, values)), ",")
  }

  /** What the canonical text puts after the key. */
  function OperatorText(p: Predicate): string {
    match p
    case Exists(_) => ""
    case NotExists(_) => ""
    case Equals(_, value) => "=" + Escape(value)
    case NotEquals(_, value) => "!=" + Escape(value)
    case In(_, values) => " in" + " (" + CanonicalSet(values) + ")"
    case NotIn(_, values) => " notin" + " (" + CanonicalSet(values) + ")"
  }

  function Canonical(p: Predicate): string {
    (if p.NotExists? then "!" else "") + p.key + OperatorText(p)
  }

  // ---- parsing ----

  function SkipWhitespace(s: string): (rest: string)
    ensures |rest| <= |s|
    ensures rest != "" ==> !IsWhitespace(rest[0])
  {
    if s != "" && IsWhitespace(s[0]) then SkipWhitespace(s[1..]) else s
  }

  predicate EndsKey(c: char) {
    IsWhitespace(c) || IsSpecial(c)
  }

  /** The length of the key text at the front of `s`. */
  function KeyEnd(s: string): (n: nat)
    ensures n <= |s|
  {
    if s == "" || EndsKey(s[0]) then 0 else 1 + KeyEnd(s[1..])
  }

  function Key(s: string): (r: Result<(QualifiedTag, string)>)
    ensures r.Ok? ==> |r.value.1| < |s| && InSelectorKeySpace(r.value.0)
  {
    var end := KeyEnd(s);
    var tag :- ParseSelectorKey(s[..end]);
    TagShape(tag);
    Ok((tag, s[end..]))
  }

  /** The characters of one value before its bound is checked. */
  function RawValue(s: string, inList: bool): (r: Result<(string, string)>)
    ensures r.Ok? ==> |r.value.1| <= |s|
  {
    if s == "" then Ok(("", ""))
    else if s[0] == '\\' then
      if |s| == 1 || Unescape(s[1]).None? then Err(InvalidInputError("selector escape"))
      else
        var (value, rest) :- RawValue(s[2..], inList);
        Ok(([Unescape(s[1]).value] + value, rest))
    else if IsWhitespace(s[0]) || (inList && (s[0] == ',' || s[0] == ')')) then Ok(("", s))
    else if IsSpecial(s[0]) then Err(InvalidInputError("selector value"))
    else
      var (value, rest) :- RawValue(s[1..], inList);
      Ok(([s[0]] + value, rest))
  }

  predicate BoundedValue(value: string) {
    value != "" && ByteLength(value) <= LABEL_VALUE_MAX_BYTES
  }

  function Value(s: string, inList: bool): (r: Result<(string, string)>)
    ensures r.Ok? ==> |r.value.1| <= |s| && BoundedValue(r.value.0)
  {
    var (value, rest) :- RawValue(s, inList);
    if BoundedValue(value) then Ok((value, rest)) else Err(InvalidInputError("selector value"))
  }

  /** The items of a set list after its opening parenthesis or a comma, `count` of them already read. */
  function Items(s: string, count: nat): (r: Result<(seq<string>, string)>)
    ensures r.Ok? ==> |r.value.1| < |s| && r.value.0 != [] && count + |r.value.0| <= SELECTOR_MAX_SET_VALUES
    ensures r.Ok? ==> forall v | v in r.value.0 :: BoundedValue(v)
    decreases |s|
  {
    if count >= SELECTOR_MAX_SET_VALUES then Err(ExhaustedError("selector set values"))
    else
      var (value, rest) :- Value(SkipWhitespace(s), true);
      var next := SkipWhitespace(rest);
      if next != "" && next[0] == ',' then
        var (values, tail) :- Items(next[1..], count + 1);
        Ok(([value] + values, tail))
      else if next != "" && next[0] == ')' then Ok(([value], next[1..]))
      else Err(InvalidInputError("selector set"))
  }

  function SetList(s: string): (r: Result<(seq<string>, string)>)
    ensures r.Ok? ==> |r.value.1| < |s| && 1 <= |r.value.0| <= SELECTOR_MAX_SET_VALUES
    ensures r.Ok? ==> forall v | v in r.value.0 :: BoundedValue(v)
  {
    if s == "" || s[0] != '(' then Err(InvalidInputError("selector set")) else Items(s[1..], 0)
  }

  /** Whether `s` starts with the keyword as a whole word. */
  predicate AtKeyword(s: string, keyword: string) {
    && keyword <= s
    && (|s| == |keyword| || IsWhitespace(s[|keyword|]) || s[|keyword|] == '(')
  }

  /** The operator after a key, or `None` (nothing read) when the key stands alone. */
  function OperatorTail(key: QualifiedTag, s: string): (r: Result<Option<(Predicate, string)>>)
    ensures r.Ok? && r.value.Some? ==> |r.value.value.1| <= |s| && r.value.value.0.key == key
  {
    var rest := SkipWhitespace(s);
    if rest != "" && rest[0] == '=' then
      var (value, tail) :- Value(SkipWhitespace(rest[1..]), false);
      Ok(Some((Equals(key, value), tail)))
    else if rest != "" && rest[0] == '!' then
      if |rest| == 1 || rest[1] != '=' then Ok(None)
      else
        var (value, tail) :- Value(SkipWhitespace(rest[2..]), false);
        Ok(Some((NotEquals(key, value), tail)))
    else if AtKeyword(rest, "in") then
      var (values, tail) :- SetList(SkipWhitespace(rest[2..]));
      Ok(Some((In(key, values), tail)))
    else if AtKeyword(rest, "notin") then
      var (values, tail) :- SetList(SkipWhitespace(rest[5..]));
      Ok(Some((NotIn(key, values), tail)))
    else Ok(None)
  }

  function OnePredicate(s: string): (r: Result<(Predicate, string)>)
    ensures r.Ok? ==> |r.value.1| < |s|
  {
    if s != "" && s[0] == '!' then
      var (key, rest) :- Key(s[1..]);
      Ok((NotExists(key), rest))
    else
      var (key, rest) :- Key(s);
      var tail :- OperatorTail(key, rest);
      Ok(if tail.Some? then tail.value else (Exists(key), rest))
  }

  /** Every predicate of `s`; `count` of them were read before it. */
  function Stream(s: string, bounded: bool, count: nat): (r: Result<seq<Predicate>>)
    ensures r.Ok? && bounded && count <= SELECTOR_MAX_PREDICATES ==> count + |r.value| <= SELECTOR_MAX_PREDICATES
    decreases |s|
  {
    var rest := SkipWhitespace(s);
    if rest == "" then Ok([])
    else if bounded && count >= SELECTOR_MAX_PREDICATES then Err(ExhaustedError("selector predicates"))
    else
      var (p, tail) :- OnePredicate(rest);
      var ps :- Stream(tail, bounded, count + 1);
      Ok([p] + ps)
  }

  function CanonicalText(ps: seq<Predicate>): string {
    Join(Normal(StringLe, Map(Canonical, ps)), " ")
  }

  function Parse(value: string): Result<Selector> {
    if value == "" || ByteLength(value) > SELECTOR_INPUT_MAX_BYTES then Err(InvalidInputError("selector input"))
    else
      var ps :- Stream(value, true, 0);
      if ps == [] || ByteLength(CanonicalText(ps)) > SELECTOR_INPUT_MAX_BYTES then
        Err(InvalidInputError("selector input"))
      else
        var reparsed :- Stream(CanonicalText(ps), false, 0);
        Ok(Selector(CanonicalText(ps), reparsed))
  }
}
