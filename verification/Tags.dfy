/**
 The qualified-tag grammar (`<domain>/<category>[/vN]/<name>`) and the closed key space a
 selector may name.  A tag is its own canonical text: the hostname rule refuses upper case,
 so the fold the parser applies afterwards never changes an accepted text.
 */
module Tags {
  import opened Results

  const MIN_TAG_LEN := 5
  const MAX_TAG_LEN := 128
  const MAX_COMPONENT_LEN := 63
  const MAX_HOSTNAME_LABEL_LEN := 63
  const MAX_DNS_NAME_LEN := 253
  const BUILTIN_DOMAIN := "radiata.woooo.tech"
  const CATEGORY_CRYPTO := "crypto"
  const CATEGORY_LABELS := "labels"
  const CATEGORY_RESOURCES := "resources"
  const RESERVED_TYPE_LABEL_KEY := "radiata.woooo.tech/resources/type"
  const RESERVED_URI_LABEL_KEY := "radiata.woooo.tech/resources/uri"

  predicate IsLower(c: char) {
    'a' <= c <= 'z'
  }

  predicate IsDigit(c: char) {
    '0' <= c <= '9'
  }

  predicate IsAlphanumeric(c: char) {
    IsLower(c) || IsDigit(c) || 'A' <= c <= 'Z'
  }

  /** `str::split` on one separator character: always at least one part. */
  function Split(s: string, separator: char): (parts: seq<string>)
    ensures |parts| >= 1
  {
    if s == "" then [""]
    else
      var rest := Split(s[1..], separator);
      if s[0] == separator then [""] + rest
      else [[s[0]] + rest[0]] + rest[1..]
  }

  predicate ValidLdhLabel(part: string) {
    && 1 <= |part| <= MAX_HOSTNAME_LABEL_LEN
    && IsAlphanumeric(part[0])
    && IsAlphanumeric(part[|part| - 1])
    && forall c | c in part :: IsAlphanumeric(c) || c == '-'
  }

  predicate ValidDnsHostname(host: string) {
    && host != ""
    && host[|host| - 1] != '.'
    && (forall c | c in host :: !('A' <= c <= 'Z'))
    && |host| <= MAX_DNS_NAME_LEN
    && forall part | part in Split(host, '.') :: ValidLdhLabel(part)
  }

  predicate ValidNameComponent(component: string) {
    && 1 <= |component| <= MAX_COMPONENT_LEN
    && IsLower(component[0])
    && IsAlphanumeric(component[|component| - 1])
    && forall c | c in component :: IsLower(c) || IsDigit(c) || c == '-'
  }

  predicate ValidVersionComponent(component: string) {
    && 2 <= |component| <= MAX_COMPONENT_LEN
    && component[0] == 'v'
    && forall c | c in component[1..] :: IsDigit(c)
  }

  predicate ValidTag(text: string) {
    && MIN_TAG_LEN <= |text| <= MAX_TAG_LEN
    && var parts := Split(text, '/');
    && 3 <= |parts| <= 4
    && ValidDnsHostname(parts[0])
    && ValidNameComponent(parts[1])
    && (if |parts| == 4 then ValidVersionComponent(parts[2]) && ValidNameComponent(parts[3])
        else ValidNameComponent(parts[2]))
    && !(parts[0] == BUILTIN_DOMAIN && parts[1] == CATEGORY_CRYPTO)
  }

  type QualifiedTag = text: string | ValidTag(text) witness "a/a/a"

  function Category(tag: QualifiedTag): string {
    Split(tag, '/')[1]
  }

  /** Custom labels, plus exactly the two reserved resource keys. */
  predicate InSelectorKeySpace(tag: QualifiedTag) {
    || Category(tag) == CATEGORY_LABELS
    || (Category(tag) == CATEGORY_RESOURCES && (tag == RESERVED_TYPE_LABEL_KEY || tag == RESERVED_URI_LABEL_KEY))
  }

  function ParseSelectorKey(text: string): (r: Result<QualifiedTag>)
    ensures r.Ok? ==> r.value == text && InSelectorKeySpace(r.value)
  {
    if !ValidTag(text) then Err(InvalidInputError("qualified tag"))
    else if !InSelectorKeySpace(text) then Err(InvalidInputError("selector key"))
    else Ok(text)
  }

  /** The only characters a tag can hold; none of them is special to the selector grammar. */
  predicate TagChar(c: char) {
    IsLower(c) || IsDigit(c) || c == '-' || c == '.' || c == '/'
  }

  lemma {:induction false} SplitCovers(s: string, separator: char, ok: char -> bool)
    requires ok(separator)
    requires forall part, c | part in Split(s, separator) && c in part :: ok(c)
    ensures forall c | c in s :: ok(c)
  {
    if s != "" {
      var rest := Split(s[1..], separator);
      var parts := Split(s, separator);
      if s[0] == separator {
        assert forall part | part in rest :: part in parts;
      } else {
        assert parts[0] == [s[0]] + rest[0];
        assert s[0] in parts[0];
        forall part, c | part in rest && c in part ensures ok(c) {
          if part == rest[0] { assert c in parts[0]; } else { assert part in parts; }
        }
      }
      SplitCovers(s[1..], separator, ok);
      assert s == [s[0]] + s[1..];
    }
  }

  lemma {:induction false} SplitWithoutSeparator(s: string, separator: char)
    requires separator !in s
    ensures Split(s, separator) == [s]
  {
    if s != "" {
      assert s[0] in s;
      SplitWithoutSeparator(s[1..], separator);
      assert s == [s[0]] + s[1..];
    }
  }

  /** What the selector grammar needs of a key: plain characters only, and at least one `/`. */
  lemma TagShape(tag: QualifiedTag)
    ensures forall c | c in tag :: TagChar(c)
    ensures '/' in tag && tag != ""
  {
    var parts := Split(tag, '/');
    forall part, c | part in parts && c in part ensures TagChar(c) {
      if part == parts[0] {
        HostnameChars(part);
      }
    }
    SplitCovers(tag, '/', TagChar);
    if '/' !in tag {
      SplitWithoutSeparator(tag, '/');
    }
  }

  lemma HostnameChars(host: string)
    requires ValidDnsHostname(host)
    ensures forall c | c in host :: TagChar(c)
  {
    forall part, c | part in Split(host, '.') && c in part ensures HostChar(c) {
    }
    SplitCovers(host, '.', HostChar);
  }

  predicate HostChar(c: char) {
    IsAlphanumeric(c) || c == '-' || c == '.'
  }

  lemma SplitAtSeparator(head: string, rest: string, separator: char)
    requires separator !in head
    ensures Split(head + [separator] + rest, separator) == [head] + Split(rest, separator)
    decreases |head|
  {
    var s := head + [separator] + rest;
    if head == "" {
      assert s[1..] == rest;
    } else {
      assert head[0] in head && s[1..] == head[1..] + [separator] + rest;
      SplitAtSeparator(head[1..], rest, separator);
      assert head == [head[0]] + head[1..];
    }
  }

  /** The text of a tag from its parts. */
  function TagText(domain: string, category: string, version: Option<string>, name: string): string {
    domain + "/" + (category + "/" + (if version.Some? then version.value + "/" + name else name))
  }

  /** A tag is a host name, a category, perhaps a version, and a name; the built-in domain keeps its crypto tags to itself. */
  lemma TagsAreTheirParts(domain: string, category: string, version: Option<string>, name: string)
    requires '/' !in domain && '/' !in category && '/' !in name && (version.Some? ==> '/' !in version.value)
    ensures var text := TagText(domain, category, version, name);
            ValidTag(text) <==>
              && 5 <= |text| <= 128 && ValidDnsHostname(domain) && ValidNameComponent(category) && ValidNameComponent(name)
              && (version.Some? ==> ValidVersionComponent(version.value))
              && !(domain == "radiata.woooo.tech" && category == "crypto")
  {
    hide Split, ValidDnsHostname, ValidNameComponent, ValidVersionComponent;
    var last := if version.Some? then version.value + "/" + name else name;
    SplitAtSeparator(domain, category + "/" + last, '/');
    SplitAtSeparator(category, last, '/');
    if version.Some? { SplitAtSeparator(version.value, name, '/'); }
    SplitWithoutSeparator(name, '/');
  }

  /** A selector may name any label and, of the resource keys, exactly the two reserved ones. */
  lemma KeySpaceIsClosed(tag: QualifiedTag)
    ensures InSelectorKeySpace(tag) <==>
            Category(tag) == "labels" || tag == "radiata.woooo.tech/resources/type" || tag == "radiata.woooo.tech/resources/uri"
  {
    hide Split;
    ReservedCategory("type");
    ReservedCategory("uri");
    assert "radiata.woooo.tech/resources/" + "type" == RESERVED_TYPE_LABEL_KEY;
    assert "radiata.woooo.tech/resources/" + "uri" == RESERVED_URI_LABEL_KEY;
  }

  lemma ReservedCategory(name: string)
    ensures var parts := Split("radiata.woooo.tech/resources/" + name, '/'); |parts| > 1 && parts[1] == "resources"
  {
    hide Split;
    var rest := "resources/" + name;
    assert "radiata.woooo.tech/resources/" + name == "radiata.woooo.tech" + "/" + rest;
    SplitAtSeparator("radiata.woooo.tech", rest, '/');
    assert rest == "resources" + "/" + name;
    SplitAtSeparator("resources", name, '/');
  }

  lemma LabelParts()
    ensures Split("a/labels/a", '/') == ["a", "labels", "a"] && Split("a", '.') == ["a"]
  {
    hide Split;
    SplitAtSeparator("a", "labels/a", '/');
    SplitAtSeparator("labels", "a", '/');
    SplitWithoutSeparator("a", '/');
    SplitWithoutSeparator("a", '.');
    assert "a/labels/a" == "a" + "/" + "labels/a" && "labels/a" == "labels" + "/" + "a";
  }

  lemma LabelNames()
    ensures ValidNameComponent("labels") && ValidNameComponent("a") && ValidLdhLabel("a")
  {
  }

  /** The selector key space is inhabited. */
  lemma ALabelKey()
    ensures ValidTag("a/labels/a") && InSelectorKeySpace("a/labels/a")
  {
    hide Split, ValidNameComponent, ValidLdhLabel;
    LabelParts();
    LabelNames();
    assert ValidDnsHostname("a");
  }
}
