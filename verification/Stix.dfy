/** Indicator patterns and the export and import of STIX bundles (cti_stix.py). */
module Stix {
  import opened Ordering
  import opened Sequences
  import opened Wrappers

  datatype StixError =
    | InvalidIp
    | UnsupportedType
    | UnsupportedEscape
    | RootNotBundle
    | ObjectsNotList
    | TooManyObjects

  // ---------------------------------------------------------------------------------------------
  // Escaping.

  /** str.replace of one character. */
  function Replaced(s: string, c: char, text: string): string {
    if s == "" then "" else (if s[0] == c then text else [s[0]]) + Replaced(s[1..], c, text)
  }

  const BACKSLASH: char := '\\'
  const QUOTE: char := '\''

  /** _escape_pattern: backslashes first, then quotes. */
  function Escaped(value: string): string {
    Replaced(Replaced(value, BACKSLASH, [BACKSLASH, BACKSLASH]), QUOTE, [BACKSLASH, QUOTE])
  }

  predicate Special(c: char) {
    c == BACKSLASH || c == QUOTE
  }

  /** What _unescape_pattern_value yields; None is its unsupported-escape error. */
  function Unescaped(value: string): Option<string> {
    if value == "" then Some("")
    else if value[0] != BACKSLASH then Before(value[..1], Unescaped(value[1..]))
    else if |value| == 1 || !Special(value[1]) then None
    else Before(value[1..2], Unescaped(value[2..]))
  }

  function Before(head: string, tail: Option<string>): Option<string> {
    if tail.Some? then Some(head + tail.value) else None
  }

  lemma BeforeTwice(a: string, b: string, tail: Option<string>)
    ensures Before(a, Before(b, tail)) == Before(a + b, tail)
  {
    if tail.Some? {
      assert a + (b + tail.value) == a + b + tail.value;
    }
  }

  lemma BeforeNothing(tail: Option<string>)
    ensures Before("", tail) == tail
  {
    if tail.Some? {
      assert "" + tail.value == tail.value;
    }
  }

  method Unescape(value: string) returns (r: Result<string, StixError>)
    ensures r == match Unescaped(value) case Some(v) => Ok(v) case None => Err(UnsupportedEscape)
  {
    var result := "";
    var index := 0;
    assert value[0..] == value;
    BeforeNothing(Unescaped(value));
    while index < |value|
      invariant 0 <= index <= |value|
      invariant Unescaped(value) == Before(result, Unescaped(value[index..]))
    {
      var rest := value[index..];
      assert rest[1..] == value[index + 1..];
      if value[index] != BACKSLASH {
        assert rest[..1] == [value[index]];
        BeforeTwice(result, [value[index]], Unescaped(value[index + 1..]));
        result := result + [value[index]];
        index := index + 1;
      } else {
        if index + 1 >= |value| || !Special(value[index + 1]) {
          return Err(UnsupportedEscape);
        }
        assert rest[2..] == value[index + 2..] && rest[1..2] == [value[index + 1]];
        BeforeTwice(result, [value[index + 1]], Unescaped(value[index + 2..]));
        result := result + [value[index + 1]];
        index := index + 2;
      }
    }
    assert value[index..] == "";
    assert result + "" == result;
    return Ok(result);
  }

  function EscapedChar(c: char): string {
    if Special(c) then [BACKSLASH, c] else [c]
  }

  lemma NothingReplaced(c: char, text: string)
    ensures Replaced("", c, text) == ""
  {
  }

  lemma ReplacedCons(a: char, b: string, c: char, text: string)
    ensures Replaced([a] + b, c, text) == (if a == c then text else [a]) + Replaced(b, c, text)
  {
    assert ([a] + b)[1..] == b;
  }

  lemma {:induction false} ReplacedAppend(a: string, b: string, c: char, text: string)
    ensures Replaced(a + b, c, text) == Replaced(a, c, text) + Replaced(b, c, text)
  {
    hide Replaced;
    if a == "" {
      assert a + b == b && "" + Replaced(b, c, text) == Replaced(b, c, text);
      NothingReplaced(c, text);
    } else {
      ReplacedAppend(a[1..], b, c, text);
      assert a == [a[0]] + a[1..] && a + b == [a[0]] + (a[1..] + b);
      ReplacedCons(a[0], a[1..], c, text);
      ReplacedCons(a[0], a[1..] + b, c, text);
    }
  }

  /** Replacing backslashes before quotes escapes every character once. */
  lemma EscapedSplit(value: string)
    requires value != ""
    ensures Escaped(value) == EscapedChar(value[0]) + Escaped(value[1..])
    ensures EscapedChar(value[0]) == if value[0] in {'\\', '\''} then ['\\', value[0]] else [value[0]]
  {
    var c, rest := value[0], value[1..];
    var first := if c == BACKSLASH then [BACKSLASH, BACKSLASH] else [c];
    var inner := Replaced(rest, BACKSLASH, [BACKSLASH, BACKSLASH]);
    assert Replaced(value, BACKSLASH, [BACKSLASH, BACKSLASH]) == first + inner;
    ReplacedAppend(first, inner, QUOTE, [BACKSLASH, QUOTE]);
    assert Replaced(first, QUOTE, [BACKSLASH, QUOTE]) == EscapedChar(c) by {
      if c == BACKSLASH {
        assert first[1..] == [BACKSLASH] && first[1..][1..] == "";
      } else {
        assert first[1..] == "";
      }
    }
  }

  /** For every string. */
  lemma {:induction false} EscapeRoundTrip(value: string)
    ensures Unescaped(Escaped(value)) == Some(value)
  {
    if value != "" {
      EscapeRoundTrip(value[1..]);
      EscapedSplit(value);
      var escaped := Escaped(value);
      var head := EscapedChar(value[0]);
      assert escaped[|head|..] == Escaped(value[1..]);
      assert value == [value[0]] + value[1..];
      if Special(value[0]) {
        assert escaped[1..2] == [value[0]];
      } else {
        assert escaped[..1] == [value[0]];
      }
    }
  }

  // ---------------------------------------------------------------------------------------------
  // The importer's regular expressions.

  /** (?:\\.|[^'])* : a backslash with any character but a newline, or anything but a quote. */
  predicate Content(s: string) {
    || s == ""
    || (|s| >= 2 && s[0] == BACKSLASH && s[1] != '\n' && Content(s[2..]))
    || (s[0] != QUOTE && Content(s[1..]))
  }

  /** Every quote directly follows a backslash. */
  ghost predicate QuotesEscaped(s: string) {
    forall i | 0 <= i < |s| && s[i] == QUOTE :: i > 0 && s[i - 1] == BACKSLASH
  }

  /** The language of the value group, despite its two overlapping alternatives. */
  lemma {:induction false} ContentIsQuotesEscaped(s: string)
    ensures Content(s) <==> QuotesEscaped(s)
    decreases |s|
  {
    if s != "" {
      ContentIsQuotesEscaped(s[1..]);
      if |s| >= 2 {
        ContentIsQuotesEscaped(s[2..]);
      }
      assert QuotesEscaped(s) && |s| >= 2 && s[1] == QUOTE ==> s[0] == BACKSLASH;
    }
  }

  lemma {:induction false} EscapedIsContent(value: string)
    ensures Content(Escaped(value))
  {
    if value != "" {
      EscapedIsContent(value[1..]);
      EscapedSplit(value);
      var escaped := Escaped(value);
      assert escaped[|EscapedChar(value[0])|..] == Escaped(value[1..]);
    }
  }

  /** Not every accepted text is an escaped one: a raw quote behind an escaped backslash is read too. */
  lemma RawQuoteAccepted()
    ensures Content([BACKSLASH, BACKSLASH, QUOTE])
    ensures Unescaped([BACKSLASH, BACKSLASH, QUOTE]) == Some([BACKSLASH, QUOTE])
    ensures Escaped([BACKSLASH, QUOTE]) != [BACKSLASH, BACKSLASH, QUOTE]
  {
    var s, quote := [BACKSLASH, BACKSLASH, QUOTE], [QUOTE];
    ContentIsQuotesEscaped(s);
    assert quote[..1] == quote && quote[1..] == "" && quote + "" == quote;
    assert Unescaped(quote) == Some(quote);
    assert s[1..2] == [BACKSLASH] && s[2..] == quote;
    assert [BACKSLASH] + quote == [BACKSLASH, QUOTE];
    EscapedSplit([BACKSLASH, QUOTE]);
    assert [BACKSLASH, QUOTE][1..] == quote;
    EscapedSplit(quote);
    assert Escaped([BACKSLASH, QUOTE])[2] == Escaped(quote)[0] == BACKSLASH;
  }

  /** A scan that takes a backslash with the next character finds no bare quote. */
  predicate NoRawQuote(s: string) {
    if s == "" then true
    else if s[0] == BACKSLASH then |s| >= 2 && NoRawQuote(s[2..])
    else s[0] != QUOTE && NoRawQuote(s[1..])
  }

  /** Exactly the readable texts without a raw quote are what escaping writes for their value. */
  lemma {:induction false} EscapedExactly(s: string)
    requires Unescaped(s).Some?
    ensures Escaped(Unescaped(s).value) == s <==> NoRawQuote(s)
    decreases |s|
  {
    hide Escaped;
    if s == "" {
      NothingEscaped();
    } else {
      var n := if s[0] == BACKSLASH then 2 else 1;
      var c, rest := s[n - 1], s[n..];
      EscapedExactly(rest);
      var value := [c] + Unescaped(rest).value;
      assert s[n - 1..n] == [c] && Unescaped(s) == Some(value);
      EscapedSplit(value);
      assert value[1..] == Unescaped(rest).value;
      assert Escaped(value) == EscapedChar(c) + Escaped(Unescaped(rest).value);
      assert s == s[..n] + rest;
      if s[0] == QUOTE {
        assert Escaped(value)[0] == BACKSLASH;
      } else {
        assert EscapedChar(c) == s[..n];
        SameTail(s[..n], Escaped(Unescaped(rest).value), rest);
      }
    }
  }

  lemma NothingEscaped()
    ensures Escaped("") == ""
  {
  }

  lemma SameTail(head: string, x: string, y: string)
    ensures head + x == head + y <==> x == y
  {
    assert x == (head + x)[|head|..] && y == (head + y)[|head|..];
  }

  // ---------------------------------------------------------------------------------------------
  // Patterns.

  datatype ValueType = Ipv4 | Ipv6 | Domain | Url | Md5 | Sha1 | Sha256

  /** Everything of a pattern before its value. */
  function Opening(t: ValueType): string {
    match t
    case Ipv4 => "[ipv4-addr:value = '"
    case Ipv6 => "[ipv6-addr:value = '"
    case Domain => "[domain-name:value = '"
    case Url => "[url:value = '"
    case Md5 => "[file:hashes.'MD5' = '"
    case Sha1 => "[file:hashes.'SHA-1' = '"
    case Sha256 => "[file:hashes.'SHA-256' = '"
  }

  const CLOSING := "']"

  function KindOf(t: ValueType): string {
    match t
    case Ipv4 => "ip"
    case Ipv6 => "ip"
    case Domain => "domain"
    case Url => "url"
    case Md5 => "md5"
    case Sha1 => "sha1"
    case Sha256 => "sha256"
  }

  /** ipaddress.ip_address(value).version, or None for its ValueError. */
  type IpVersion = string -> Option<int>

  /** indicator_pattern's choice of object type. */
  function TypeFor(ipVersion: IpVersion, kind: string, value: string): Result<ValueType, StixError> {
    if kind == "ip" then
      match ipVersion(value)
      case None => Err(InvalidIp)
      case Some(version) => Ok(if version == 4 then Ipv4 else Ipv6)
    else if kind == "domain" then Ok(Domain)
    else if kind == "url" then Ok(Url)
    else if kind == "md5" then Ok(Md5)
    else if kind == "sha1" then Ok(Sha1)
    else if kind == "sha256" then Ok(Sha256)
    else Err(UnsupportedType)
  }

  function IndicatorPattern(ipVersion: IpVersion, kind: string, value: string): Result<string, StixError> {
    match TypeFor(ipVersion, kind, value)
    case Err(e) => Err(e)
    case Ok(t) => Ok(Opening(t) + Escaped(value) + CLOSING)
  }

  /** fullmatch with the opening of t; the value group of the match. */
  function Matched(t: ValueType, pattern: string): Option<string> {
    var start, end := |Opening(t)|, |pattern| - |CLOSING|;
    if start <= end && pattern[..start] == Opening(t) && pattern[end..] == CLOSING && Content(pattern[start..end]) then
      Some(pattern[start..end])
    else None
  }

  const VALUE_TYPES := [Ipv4, Ipv6, Domain, Url, Md5, Sha1, Sha256]

  /** _VALUE_PATTERN, then _HASH_PATTERN: the first alternative that matches. */
  function Recognised(pattern: string, from: nat := 0): Option<(ValueType, string)>
    requires from <= |VALUE_TYPES|
    decreases |VALUE_TYPES| - from
  {
    if from == |VALUE_TYPES| then None
    else
      match Matched(VALUE_TYPES[from], pattern)
      case Some(content) => Some((VALUE_TYPES[from], content))
      case None => Recognised(pattern, from + 1)
  }

  /** No opening starts like another. */
  lemma OpeningsDiffer(t: ValueType, u: ValueType, pattern: string)
    requires |Opening(t)| <= |pattern| && |Opening(u)| <= |pattern|
    requires pattern[..|Opening(t)|] == Opening(t) && pattern[..|Opening(u)|] == Opening(u)
    ensures t == u
  {
    assert Opening(t)[1] == pattern[1] == Opening(u)[1];
    assert Opening(t)[4] == pattern[4] == Opening(u)[4];
    if IsHash(t) && IsHash(u) {
      assert Opening(t)[14] == pattern[14] == Opening(u)[14];
      assert Opening(t)[18] == pattern[18] == Opening(u)[18];
    }
  }

  predicate IsHash(t: ValueType) {
    t.Md5? || t.Sha1? || t.Sha256?
  }

  lemma {:induction false} RecognisedOnly(t: ValueType, pattern: string, content: string, from: nat)
    requires Matched(t, pattern) == Some(content) && from <= |VALUE_TYPES|
    requires exists i :: from <= i < |VALUE_TYPES| && VALUE_TYPES[i] == t
    ensures Recognised(pattern, from) == Some((t, content))
    decreases |VALUE_TYPES| - from
  {
    hide Content, Opening;
    if VALUE_TYPES[from] != t {
      if Matched(VALUE_TYPES[from], pattern).Some? {
        OpeningsDiffer(VALUE_TYPES[from], t, pattern);
      }
      RecognisedOnly(t, pattern, content, from + 1);
    }
  }

  /** Every pattern the exporter writes is read back to its kind and value. */
  lemma PatternRoundTrip(ipVersion: IpVersion, kind: string, value: string)
    requires IndicatorPattern(ipVersion, kind, value).Ok?
    ensures var r := Recognised(IndicatorPattern(ipVersion, kind, value).value);
            r.Some? && KindOf(r.value.0) == kind && Unescaped(r.value.1) == Some(value)
  {
    hide Escaped, Content, Opening, Recognised;
    var t := TypeFor(ipVersion, kind, value).value;
    var pattern := Opening(t) + Escaped(value) + CLOSING;
    EscapeRoundTrip(value);
    EscapedIsContent(value);
    assert pattern[..|Opening(t)|] == Opening(t);
    assert pattern[|pattern| - |CLOSING|..] == CLOSING;
    assert pattern[|Opening(t)|..|pattern| - |CLOSING|] == Escaped(value);
    TypesListed(t);
    RecognisedOnly(t, pattern, Escaped(value), 0);
  }

  lemma TypesListed(t: ValueType)
    ensures exists i :: 0 <= i < |VALUE_TYPES| && VALUE_TYPES[i] == t
  {
    assert VALUE_TYPES[0] == Ipv4 && VALUE_TYPES[1] == Ipv6 && VALUE_TYPES[2] == Domain && VALUE_TYPES[3] == Url;
    assert VALUE_TYPES[4] == Md5 && VALUE_TYPES[5] == Sha1 && VALUE_TYPES[6] == Sha256;
  }

  /** Every pattern the exporter writes, by kind. */
  lemma PatternTexts(ipVersion: IpVersion, value: string)
    ensures IndicatorPattern(ipVersion, "ip", value) ==
            match ipVersion(value)
            case None => Err(InvalidIp)
            case Some(4) => Ok("[ipv4-addr:value = '" + Escaped(value) + "']")
            case Some(_) => Ok("[ipv6-addr:value = '" + Escaped(value) + "']")
    ensures IndicatorPattern(ipVersion, "domain", value) == Ok("[domain-name:value = '" + Escaped(value) + "']")
    ensures IndicatorPattern(ipVersion, "url", value) == Ok("[url:value = '" + Escaped(value) + "']")
    ensures IndicatorPattern(ipVersion, "md5", value) == Ok("[file:hashes.'MD5' = '" + Escaped(value) + "']")
    ensures IndicatorPattern(ipVersion, "sha1", value) == Ok("[file:hashes.'SHA-1' = '" + Escaped(value) + "']")
    ensures IndicatorPattern(ipVersion, "sha256", value) == Ok("[file:hashes.'SHA-256' = '" + Escaped(value) + "']")
    ensures forall kind | kind !in {"ip", "domain", "url", "md5", "sha1", "sha256"} ::
              IndicatorPattern(ipVersion, kind, value) == Err(UnsupportedType)
  {
    hide Escaped;
  }

  // ---------------------------------------------------------------------------------------------
  // Bundles.

  /** lower, strip and ip_address, the timestamp normaliser with its fallback, and the time the bundle is written. */
  datatype Env = Env(lower: string -> string, strip: string -> string, ipVersion: IpVersion,
                     timestamp: (string, string) -> string, created: string)

  /**
   * One row handed to the exporter: labels is None when the field is no list, validFrom is valid_from or else
   * first_seen, and a missing text is empty.
   */
  datatype Item =
    | NotADict
    | Item(typeText: string, value: string, labels: Option<seq<string>>, confidence: Option<int>,
           description: string, validFrom: string, validUntil: string)

  datatype StixObject =
    | NotAnObject
    | OtherObject(typeText: string)
    | IndicatorObject(patternType: Option<string>, pattern: string, labels: Option<seq<string>>,
                      confidence: Option<int>, description: Option<string>, validFrom: Option<string>,
                      validUntil: Option<string>)

  datatype Imported =
    Imported(kind: string, value: string, labels: Option<seq<string>>, confidence: Option<int>,
             description: Option<string>, validFrom: Option<string>, validUntil: Option<string>)

  /** The labels that survive: of the first sixteen the ones that are not blank, cut to 128 characters. */
  function CleanLabels(env: Env, labels: seq<string>): (r: seq<string>)
    ensures |r| <= |labels|
  {
    if labels == [] then []
    else
      var rest := CleanLabels(env, labels[1..]);
      if env.strip(labels[0]) == "" then rest else [Take(labels[0], 128)] + rest
  }

  predicate InRange(confidence: Option<int>) {
    confidence.Some? && 0 <= confidence.value <= 100
  }

  predicate Supported(env: Env, item: Item) {
    && item.Item?
    && env.lower(item.typeText) != "" && item.value != ""
    && TypeFor(env.ipVersion, env.lower(item.typeText), item.value).Ok?
  }

  /** The pair the seen set is about. */
  function Pair(env: Env, item: Item): (string, string) {
    if item.Item? then (env.lower(item.typeText), item.value) else ("", "")
  }

  function LabelsOut(env: Env, item: Item): Option<seq<string>>
    requires item.Item?
  {
    if item.labels.None? then None
    else
      var clean := CleanLabels(env, Take(item.labels.value, 16));
      if clean == [] then None else Some(clean)
  }

  function DescriptionOut(env: Env, item: Item): Option<string>
    requires item.Item?
  {
    var text := env.strip(item.description);
    if text == "" then None else Some(Take(text, 512))
  }

  function ValidFromOut(env: Env, item: Item): string
    requires item.Item?
  {
    env.timestamp(item.validFrom, env.created)
  }

  /** Kept only when it normalises and comes after valid_from. */
  function ValidUntilOut(env: Env, item: Item): Option<string>
    requires item.Item?
  {
    var until := env.timestamp(item.validUntil, "");
    if item.validUntil != "" && until != "" && StringLess(ValidFromOut(env, item), until) then Some(until) else None
  }

  /** obj.get(name) where None and the empty text are passed over. */
  function Present(text: Option<string>): Option<string> {
    if text == Some("") then None else text
  }

  /** The object written for a supported item. */
  function Written(env: Env, item: Item): StixObject
    requires Supported(env, item)
  {
    IndicatorObject(Some("stix"), IndicatorPattern(env.ipVersion, env.lower(item.typeText), item.value).value,
                    LabelsOut(env, item), if InRange(item.confidence) then item.confidence else None,
                    DescriptionOut(env, item), Some(ValidFromOut(env, item)), ValidUntilOut(env, item))
  }

  /** What an import should make of it. */
  function Kept(env: Env, item: Item): Imported
    requires Supported(env, item)
  {
    Imported(env.lower(item.typeText), item.value, LabelsOut(env, item),
             if InRange(item.confidence) then item.confidence else None, DescriptionOut(env, item),
             Present(Some(ValidFromOut(env, item))), ValidUntilOut(env, item))
  }

  /** Labels pass one by one, in order: a blank one is dropped, any other cut to 128 characters. */
  lemma LabelsOneByOne(env: Env, text: string, rest: seq<string>)
    ensures CleanLabels(env, []) == []
    ensures CleanLabels(env, [text] + rest) ==
            (if env.strip(text) == "" then [] else [text[..if |text| <= 128 then |text| else 128]])
            + CleanLabels(env, rest)
  {
    assert ([text] + rest)[1..] == rest;
    assert Take(text, 128) == text[..if |text| <= 128 then |text| else 128];
  }

  /** What an import makes of an exported item, field by field. */
  lemma KeptExactly(env: Env, item: Item)
    requires Supported(env, item)
    ensures var kept, from, until, text := Kept(env, item), env.timestamp(item.validFrom, env.created),
                                           env.timestamp(item.validUntil, ""), env.strip(item.description);
            && kept.kind == env.lower(item.typeText) && kept.value == item.value
            && kept.confidence == (if item.confidence.Some? && 0 <= item.confidence.value <= 100 then item.confidence
                                   else None)
            && kept.description == (if text == "" then None
                                    else Some(text[..if |text| <= 512 then |text| else 512]))
            && kept.validFrom == (if from == "" then None else Some(from))
            && kept.validUntil == (if item.validUntil != "" && until != "" && Precedes(from, until) then Some(until)
                                   else None)
            && kept.labels == (match item.labels
                               case None => None
                               case Some(labels) =>
                                 var clean := CleanLabels(env, labels[..if |labels| <= 16 then |labels| else 16]);
                                 if clean == [] then None else Some(clean))
  {
    hide Precedes, CleanLabels;
    StringLessExactly(env.timestamp(item.validFrom, env.created), env.timestamp(item.validUntil, ""));
    var text := env.strip(item.description);
    assert Take(text, 512) == text[..if |text| <= 512 then |text| else 512];
    if item.labels.Some? {
      var labels := item.labels.value;
      assert Take(labels, 16) == labels[..if |labels| <= 16 then |labels| else 16];
    }
  }

  /** Which items are exported: a type, a value, and a pattern for them. */
  lemma SupportedExactly(env: Env, item: Item)
    ensures Supported(env, item)
            <==> && item.Item? && item.value != ""
                 && var kind := env.lower(item.typeText);
                    || kind in {"domain", "url", "md5", "sha1", "sha256"}
                    || (kind == "ip" && env.ipVersion(item.value).Some?)
  {
  }

  /** The first supported item with its type and value. */
  predicate IsFirst(env: Env, items: seq<Item>, k: nat) {
    && k < |items| && Supported(env, items[k])
    && forall j | 0 <= j < k && Supported(env, items[j]) :: Pair(env, items[j]) != Pair(env, items[k])
  }

  predicate Selects(env: Env, items: seq<Item>, at: seq<nat>) {
    forall i | 0 <= i < |at| :: at[i] < |items| && Supported(env, items[at[i]])
  }

  /** The positions of first occurrences among the first n items, in order. */
  function Firsts(env: Env, items: seq<Item>, n: nat): (r: seq<nat>)
    requires n <= |items|
    ensures forall k: nat :: k in r <==> k < n && IsFirst(env, items, k)
    ensures Selects(env, items, r)
    ensures forall i | 0 <= i < |r| :: r[i] < n
    ensures forall i, j | 0 <= i < j < |r| :: r[i] < r[j]
  {
    if n == 0 then []
    else
      var before := Firsts(env, items, n - 1);
      if IsFirst(env, items, n - 1) then before + [n - 1] else before
  }

  function WrittenAt(env: Env, items: seq<Item>, at: seq<nat>): (r: seq<StixObject>)
    requires Selects(env, items, at)
    ensures |r| == |at|
  {
    if at == [] then []
    else WrittenAt(env, items, at[..|at| - 1]) + [Written(env, items[at[|at| - 1]])]
  }

  function KeptAt(env: Env, items: seq<Item>, at: seq<nat>): (r: seq<Imported>)
    requires Selects(env, items, at)
    ensures |r| == |at| && forall i | 0 <= i < |at| :: r[i] == Kept(env, items[at[i]])
  {
    if at == [] then []
    else KeptAt(env, items, at[..|at| - 1]) + [Kept(env, items[at[|at| - 1]])]
  }

  ghost predicate Seen(env: Env, items: seq<Item>, n: nat, p: (string, string))
    requires n <= |items|
  {
    exists j :: 0 <= j < n && Supported(env, items[j]) && Pair(env, items[j]) == p
  }

  /** export_stix_bundle's objects, behind the marking definitions. */
  method ExportBundle(env: Env, items: seq<Item>, markings: seq<StixObject>) returns (objects: seq<StixObject>)
    ensures objects == markings + WrittenAt(env, items, Firsts(env, items, |items|))
  {
    hide Written, TypeFor, Seen, IsFirst, Firsts, WrittenAt;
    objects := markings;
    var seen: set<(string, string)> := {};
    NothingSeen(env, items);
    assert markings + [] == markings;
    for i := 0 to |items|
      invariant objects == markings + WrittenAt(env, items, Firsts(env, items, i))
      invariant forall p :: p in seen <==> Seen(env, items, i, p)
    {
      var item := items[i];
      SeenNext(env, items, i);
      if item.NotADict? {
        continue;
      }
      var kind, value := env.lower(item.typeText), item.value;
      if kind == "" || value == "" || (kind, value) in seen {
        continue;
      }
      if TypeFor(env.ipVersion, kind, value).Err? {
        continue;
      }
      seen := seen + {(kind, value)};
      SelectNext(env, items, i, markings);
      objects := objects + [Written(env, item)];
    }
  }

  lemma NothingSeen(env: Env, items: seq<Item>)
    ensures forall p :: !Seen(env, items, 0, p)
    ensures Firsts(env, items, 0) == [] && WrittenAt(env, items, []) == []
  {
  }

  lemma SeenNext(env: Env, items: seq<Item>, i: nat)
    requires i < |items|
    ensures forall p :: Seen(env, items, i + 1, p) <==>
                        Seen(env, items, i, p) || (Supported(env, items[i]) && p == Pair(env, items[i]))
    ensures IsFirst(env, items, i) <==> Supported(env, items[i]) && !Seen(env, items, i, Pair(env, items[i]))
    ensures !IsFirst(env, items, i) ==> Firsts(env, items, i + 1) == Firsts(env, items, i)
  {
    hide Supported, Pair;
    forall p ensures Seen(env, items, i + 1, p) <==>
                     Seen(env, items, i, p) || (Supported(env, items[i]) && p == Pair(env, items[i])) {
    }
  }

  lemma SelectNext(env: Env, items: seq<Item>, i: nat, markings: seq<StixObject>)
    requires i < |items| && IsFirst(env, items, i)
    ensures markings + WrittenAt(env, items, Firsts(env, items, i + 1)) ==
            markings + WrittenAt(env, items, Firsts(env, items, i)) + [Written(env, items[i])]
  {
    hide Written, IsFirst, Supported;
    var before, at := Firsts(env, items, i), Firsts(env, items, i + 1);
    assert at == before + [i] && at[..|at| - 1] == before;
  }

  /** What the import makes of one object; None when it is passed over. */
  function Read(obj: StixObject): Result<Option<Imported>, StixError> {
    if !obj.IndicatorObject? || obj.patternType !in {None, Some("stix")} then Ok(None)
    else
      match Recognised(obj.pattern)
      case None => Ok(None)
      case Some((t, content)) =>
        match Unescaped(content)
        case None => Err(UnsupportedEscape)
        case Some(value) =>
          Ok(Some(Imported(KindOf(t), value,
                           if obj.labels.Some? then Some(Take(obj.labels.value, 16)) else None,
                           if InRange(obj.confidence) then obj.confidence else None,
                           Present(obj.description), Present(obj.validFrom), Present(obj.validUntil))))
  }

  lemma {:induction false} RecognisedIs(pattern: string, from: nat)
    requires from <= |VALUE_TYPES|
    ensures Recognised(pattern, from).Some? ==>
              var (t, content) := Recognised(pattern, from).value;
              pattern == Opening(t) + content + CLOSING && Content(content)
    decreases |VALUE_TYPES| - from
  {
    hide Content, Opening;
    if from < |VALUE_TYPES| {
      var t := VALUE_TYPES[from];
      if Matched(t, pattern).Some? {
        var start, end := |Opening(t)|, |pattern| - |CLOSING|;
        assert pattern == pattern[..start] + pattern[start..end] + pattern[end..];
      } else {
        RecognisedIs(pattern, from + 1);
      }
    }
  }

  /** Which objects are looked into: STIX indicators, or ones without a pattern type, with a pattern of a known type. */
  lemma ReadExactly(obj: StixObject)
    ensures Read(obj) != Ok(None)
            <==> && obj.IndicatorObject? && (obj.patternType == None || obj.patternType == Some("stix"))
                 && exists t, content :: obj.pattern == Opening(t) + content + "']" && QuotesEscaped(content)
  {
    hide Recognised, Content, Opening, QuotesEscaped, Unescaped;
    if obj.IndicatorObject? {
      RecognisedIs(obj.pattern, 0);
      if Recognised(obj.pattern).Some? {
        var (t, content) := Recognised(obj.pattern).value;
        ContentIsQuotesEscaped(content);
      }
      forall t, content | obj.pattern == Opening(t) + content + "']" && QuotesEscaped(content)
        ensures Recognised(obj.pattern).Some?
      {
        ContentIsQuotesEscaped(content);
        var pattern := obj.pattern;
        assert pattern[..|Opening(t)|] == Opening(t) && pattern[|pattern| - 2..] == "']";
        assert pattern[|Opening(t)|..|pattern| - 2] == content;
        TypesListed(t);
        RecognisedOnly(t, pattern, content, 0);
      }
    }
  }

  function ReadAll(objects: seq<StixObject>): Result<seq<Imported>, StixError> {
    if objects == [] then Ok([])
    else
      match ReadAll(objects[..|objects| - 1])
      case Err(e) => Err(e)
      case Ok(before) =>
        match Read(objects[|objects| - 1])
        case Err(e) => Err(e)
        case Ok(None) => Ok(before)
        case Ok(Some(item)) => Ok(before + [item])
  }

  datatype Bundle = NotABundle | ObjectsNotAList | Bundle(objects: seq<StixObject>)

  function Limit(maxObjects: int): (r: int)
    ensures 1 <= r <= 500_000 && (1 <= maxObjects <= 500_000 ==> r == maxObjects)
    ensures maxObjects < 1 ==> r == 1
    ensures maxObjects > 500_000 ==> r == 500_000
  {
    if maxObjects < 1 then 1 else if maxObjects > 500000 then 500000 else maxObjects
  }

  /** import_stix_bundle: one unsupported escape fails the whole bundle. */
  method ImportBundle(bundle: Bundle, maxObjects: int) returns (r: Result<seq<Imported>, StixError>)
    ensures bundle.NotABundle? ==> r == Err(RootNotBundle)
    ensures bundle.ObjectsNotAList? ==> r == Err(ObjectsNotList)
    ensures bundle.Bundle? ==>
              r == if |bundle.objects| > Limit(maxObjects) then Err(TooManyObjects) else ReadAll(bundle.objects)
  {
    hide Recognised;
    if bundle.NotABundle? {
      return Err(RootNotBundle);
    }
    if bundle.ObjectsNotAList? {
      return Err(ObjectsNotList);
    }
    var objects := bundle.objects;
    if |objects| > Limit(maxObjects) {
      return Err(TooManyObjects);
    }
    var indicators: seq<Imported> := [];
    for i := 0 to |objects|
      invariant ReadAll(objects[..i]) == Ok(indicators)
    {
      assert objects[..i + 1][..i] == objects[..i];
      var obj := objects[i];
      if !obj.IndicatorObject? || obj.patternType !in {None, Some("stix")} {
        continue;
      }
      var match_ := Recognised(obj.pattern);
      if match_.None? {
        continue;
      }
      var unescaped := Unescape(match_.value.1);
      if unescaped.Err? {
        ErrorStays(objects, i + 1, UnsupportedEscape);
        return Err(UnsupportedEscape);
      }
      indicators := indicators + [Read(obj).value.value];
    }
    assert objects[..|objects|] == objects;
    return Ok(indicators);
  }

  lemma {:induction false} ErrorStays(objects: seq<StixObject>, k: nat, e: StixError)
    requires k <= |objects| && ReadAll(objects[..k]) == Err(e)
    ensures ReadAll(objects) == Err(e)
    decreases |objects|
  {
    if k == |objects| {
      assert objects[..k] == objects;
    } else {
      var before := objects[..|objects| - 1];
      assert before[..k] == objects[..k];
      ErrorStays(before, k, e);
    }
  }

  lemma ReadBack(env: Env, item: Item)
    requires Supported(env, item)
    ensures Read(Written(env, item)) == Ok(Some(Kept(env, item)))
  {
    hide Recognised, IndicatorPattern, TypeFor, Unescaped;
    PatternOk(env.ipVersion, env.lower(item.typeText), item.value);
    PatternRoundTrip(env.ipVersion, env.lower(item.typeText), item.value);
    assert DescriptionOut(env, item) != Some("");
    if LabelsOut(env, item).Some? {
      assert Take(LabelsOut(env, item).value, 16) == LabelsOut(env, item).value;
    }
  }

  lemma PatternOk(ipVersion: IpVersion, kind: string, value: string)
    ensures IndicatorPattern(ipVersion, kind, value).Ok? <==> TypeFor(ipVersion, kind, value).Ok?
  {
  }

  predicate Marking(obj: StixObject) {
    !obj.IndicatorObject?
  }

  lemma {:induction false} MarkingsReadAsNothing(markings: seq<StixObject>)
    requires forall m | m in markings :: Marking(m)
    ensures ReadAll(markings) == Ok([])
  {
    if markings != [] {
      assert markings[|markings| - 1] in markings;
      assert Marking(markings[|markings| - 1]);
      MarkingsReadAsNothing(markings[..|markings| - 1]);
    }
  }

  lemma {:induction false} ReadAllBack(env: Env, items: seq<Item>, markings: seq<StixObject>, at: seq<nat>)
    requires forall m | m in markings :: Marking(m)
    requires Selects(env, items, at)
    ensures ReadAll(markings + WrittenAt(env, items, at)) == Ok(KeptAt(env, items, at))
    decreases |at|
  {
    hide Read, Written, Kept, Supported, Marking;
    if at == [] {
      MarkingsReadAsNothing(markings);
      assert markings + [] == markings;
    } else {
      var before, last := at[..|at| - 1], items[at[|at| - 1]];
      ReadAllBack(env, items, markings, before);
      var all := markings + WrittenAt(env, items, at);
      assert all[..|all| - 1] == markings + WrittenAt(env, items, before);
      assert all[|all| - 1] == Written(env, last);
      ReadBack(env, last);
    }
  }

  /**
   * Reading the objects of an exported bundle gives the supported items, first occurrences only and in order.
   */
  lemma BundleRoundTrip(env: Env, items: seq<Item>, markings: seq<StixObject>)
    requires forall m | m in markings :: Marking(m)
    ensures var at := Firsts(env, items, |items|);
            ReadAll(markings + WrittenAt(env, items, at)) == Ok(KeptAt(env, items, at))
  {
    hide ReadAll, WrittenAt, KeptAt, Marking;
    ReadAllBack(env, items, markings, Firsts(env, items, |items|));
  }

  /** Export, then import. */
  method ExportThenImport(env: Env, items: seq<Item>, markings: seq<StixObject>, maxObjects: int)
    returns (r: Result<seq<Imported>, StixError>)
    requires forall m | m in markings :: Marking(m)
    ensures var at := Firsts(env, items, |items|);
            r == if |markings| + |at| > Limit(maxObjects) then Err(TooManyObjects) else Ok(KeptAt(env, items, at))
  {
    hide ReadAll, WrittenAt, KeptAt, Marking, Limit, Firsts;
    var objects := ExportBundle(env, items, markings);
    BundleRoundTrip(env, items, markings);
    r := ImportBundle(Bundle(objects), maxObjects);
  }

  /** Every supported type and value comes through exactly once. */
  lemma PairsComeOnce(env: Env, items: seq<Item>, k: nat) returns (i: nat)
    requires k < |items| && Supported(env, items[k])
    ensures var kept := KeptAt(env, items, Firsts(env, items, |items|));
            && i < |kept| && (kept[i].kind, kept[i].value) == Pair(env, items[k])
            && forall j | 0 <= j < |kept| && (kept[j].kind, kept[j].value) == Pair(env, items[k]) :: j == i
  {
    hide Supported, Pair, Kept, IsFirst, Firsts;
    var first := FirstOf(env, items, k);
    var at := Firsts(env, items, |items|);
    var kept := KeptAt(env, items, at);
    i :| 0 <= i < |at| && at[i] == first;
    KeptPair(env, items[first]);
    forall j | 0 <= j < |kept| && (kept[j].kind, kept[j].value) == Pair(env, items[k]) ensures j == i {
      assert at[j] in at;
      KeptPair(env, items[at[j]]);
      OnlyOneFirst(env, items, at[j], first);
    }
  }

  lemma KeptPair(env: Env, item: Item)
    requires Supported(env, item)
    ensures (Kept(env, item).kind, Kept(env, item).value) == Pair(env, item)
  {
  }

  lemma OnlyOneFirst(env: Env, items: seq<Item>, i: nat, j: nat)
    requires IsFirst(env, items, i) && IsFirst(env, items, j) && Pair(env, items[i]) == Pair(env, items[j])
    ensures i == j
  {
  }

  lemma {:induction false} FirstOf(env: Env, items: seq<Item>, k: nat) returns (first: nat)
    requires k < |items| && Supported(env, items[k])
    ensures first <= k && IsFirst(env, items, first) && Pair(env, items[first]) == Pair(env, items[k])
    decreases k
  {
    hide Supported;
    if IsFirst(env, items, k) {
      first := k;
    } else {
      var j :| 0 <= j < k && Supported(env, items[j]) && Pair(env, items[j]) == Pair(env, items[k]);
      first := FirstOf(env, items, j);
    }
  }
}
