/** Bounded normalisation of untrusted event payloads, with an audit of what was lost (model.py). */
module Normalizer {
  import opened Sequences
  import opened Wrappers

  const MAX_STRING := 4096
  const MAX_ITEMS := 128
  const MAX_DEPTH := 6
  const MAX_AUDIT_PATHS := 64

  /** A dictionary key; a key that is no text is shown by str(key). */
  datatype Key = TextKey(text: string) | OtherKey(text: string)

  datatype Entry = Entry(key: Key, value: Value)

  /** Other is any value of another type, shown by str(value). */
  datatype Value =
    | Null
    | Bool(b: bool)
    | Int(i: int)
    | Finite(x: real)
    | NonFinite
    | Str(s: string)
    | List(items: seq<Value>)
    | Dict(entries: seq<Entry>)
    | Other(text: string)

  datatype Error = NestingTooDeep | NonFiniteNumber | WrongShape(field: string)

  predicate SafeChar(c: char) {
    'A' <= c <= 'Z' || 'a' <= c <= 'z' || '0' <= c <= '9' || c in "_.:-"
  }

  /** _SAFE_KEY.fullmatch. */
  predicate SafeKey(key: string) {
    1 <= |key| <= 96 && forall i | 0 <= i < |key| :: SafeChar(key[i])
  }

  /** By code points: 1 to 96 digits, letters, underscores, full stops, colons and hyphens of ASCII. */
  lemma SafeKeyCodes(key: string)
    ensures SafeKey(key) <==>
            && 1 <= |key| <= 96
            && forall i | 0 <= i < |key| ::
                 var code := key[i] as int;
                 48 <= code <= 57 || 65 <= code <= 90 || 97 <= code <= 122 || code in {95, 46, 58, 45}
  {
    assert forall i | 0 <= i < 4 :: "_.:-"[i] as int in {95, 46, 58, 45};
    assert "_.:-"[0] == '_' && "_.:-"[1] == '.' && "_.:-"[2] == ':' && "_.:-"[3] == '-';
  }

  /** clean[key] = value on a dictionary in insertion order. */
  function Assigned(clean: seq<Entry>, key: string, value: Value): (r: seq<Entry>)
    ensures |clean| <= |r| <= |clean| + 1
    ensures |r| == |clean| + 1 ==> r == clean + [Entry(TextKey(key), value)]
  {
    if clean == [] then [Entry(TextKey(key), value)]
    else if clean[0].key == TextKey(key) then [Entry(TextKey(key), value)] + clean[1..]
    else [clean[0]] + Assigned(clean[1..], key, value)
  }

  function Levels(depth: nat): nat {
    if depth > MAX_DEPTH then 0 else MAX_DEPTH + 1 - depth
  }

  /** What _bounded returns or raises. */
  function Bounded(v: Value, depth: nat): Result<Value, Error>
    decreases Levels(depth), 1, 0
  {
    if depth > MAX_DEPTH then Err(NestingTooDeep)
    else
      match v
      case NonFinite => Err(NonFiniteNumber)
      case Str(s) => Ok(Str(Take(s, MAX_STRING)))
      case Other(text) => Ok(Str(Take(text, MAX_STRING)))
      case List(items) =>
        (match Items(Take(items, MAX_ITEMS), depth)
         case Err(e) => Err(e)
         case Ok(clean) => Ok(List(clean)))
      case Dict(entries) =>
        (match Entries(Take(entries, MAX_ITEMS), depth)
         case Err(e) => Err(e)
         case Ok(clean) => Ok(Dict(clean)))
      case _ => Ok(v)
  }

  function Items(items: seq<Value>, depth: nat): (r: Result<seq<Value>, Error>)
    requires depth <= MAX_DEPTH
    ensures r.Ok? ==> |r.value| == |items|
    decreases Levels(depth), 0, |items|
  {
    if items == [] then Ok([])
    else
      match Items(items[..|items| - 1], depth)
      case Err(e) => Err(e)
      case Ok(clean) =>
        match Bounded(items[|items| - 1], depth + 1)
        case Err(e) => Err(e)
        case Ok(v) => Ok(clean + [v])
  }

  function Entries(entries: seq<Entry>, depth: nat): (r: Result<seq<Entry>, Error>)
    requires depth <= MAX_DEPTH
    ensures r.Ok? ==> |r.value| <= |entries|
    decreases Levels(depth), 0, |entries|
  {
    if entries == [] then Ok([])
    else
      match Entries(entries[..|entries| - 1], depth)
      case Err(e) => Err(e)
      case Ok(clean) =>
        var last := entries[|entries| - 1];
        if !SafeKey(last.key.text) then Ok(clean)
        else
          match Bounded(last.value, depth + 1)
          case Err(e) => Err(e)
          case Ok(v) => Ok(Assigned(clean, last.key.text, v))
  }

  // ---------------------------------------------------------------------------------------------
  // The audit.

  datatype AuditKey = TruncatedStrings | TruncatedCollections | DroppedKeys | CoercedValues | SecretsRedacted

  datatype Note = Note(key: AuditKey, path: string)

  function NoteIf(condition: bool, key: AuditKey, path: string): seq<Note> {
    if condition then [Note(key, path)] else []
  }

  /** The notes a successful _bounded leaves, in order. */
  function Notes(v: Value, depth: nat, path: string): seq<Note>
    decreases Levels(depth), 1, 0
  {
    if depth > MAX_DEPTH then []
    else
      match v
      case Str(s) => NoteIf(|s| > MAX_STRING, TruncatedStrings, path)
      case Other(text) => [Note(CoercedValues, path)] + NoteIf(|text| > MAX_STRING, TruncatedStrings, path)
      case List(items) =>
        NoteIf(|items| > MAX_ITEMS, TruncatedCollections, path) + ItemNotes(Take(items, MAX_ITEMS), depth, path)
      case Dict(entries) =>
        NoteIf(|entries| > MAX_ITEMS, TruncatedCollections, path) + EntryNotes(Take(entries, MAX_ITEMS), depth, path)
      case _ => []
  }

  function ItemNotes(items: seq<Value>, depth: nat, path: string): seq<Note>
    requires depth <= MAX_DEPTH
    decreases Levels(depth), 0, |items|
  {
    if items == [] then []
    else ItemNotes(items[..|items| - 1], depth, path) + Notes(items[|items| - 1], depth + 1, path + "[]")
  }

  function EntryNotes(entries: seq<Entry>, depth: nat, path: string): seq<Note>
    requires depth <= MAX_DEPTH
    decreases Levels(depth), 0, |entries|
  {
    if entries == [] then []
    else
      var last := entries[|entries| - 1];
      EntryNotes(entries[..|entries| - 1], depth, path) +
      if SafeKey(last.key.text) then Notes(last.value, depth + 1, path + "." + last.key.text)
      else [Note(DroppedKeys, path)]
  }

  // ---------------------------------------------------------------------------------------------
  // What the result looks like.

  predicate DistinctKeys(entries: seq<Entry>) {
    forall i, j | 0 <= i < j < |entries| :: entries[i].key != entries[j].key
  }

  predicate SafeKeys(entries: seq<Entry>) {
    forall i | 0 <= i < |entries| :: entries[i].key.TextKey? && SafeKey(entries[i].key.text)
  }

  /** Every limit is respected, from a value at this depth down. */
  predicate WithinLimits(v: Value, depth: nat)
    decreases Levels(depth)
  {
    && depth <= MAX_DEPTH
    && match v
       case NonFinite => false
       case Other(_) => false
       case Str(s) => |s| <= MAX_STRING
       case List(items) =>
         |items| <= MAX_ITEMS && forall i | 0 <= i < |items| :: WithinLimits(items[i], depth + 1)
       case Dict(entries) =>
         && |entries| <= MAX_ITEMS && DistinctKeys(entries) && SafeKeys(entries)
         && forall i | 0 <= i < |entries| :: WithinLimits(entries[i].value, depth + 1)
       case _ => true
  }

  predicate EntriesWithin(entries: seq<Entry>, depth: nat) {
    && DistinctKeys(entries) && SafeKeys(entries)
    && forall i | 0 <= i < |entries| :: WithinLimits(entries[i].value, depth)
  }

  predicate NewKey(clean: seq<Entry>, key: Key) {
    forall i | 0 <= i < |clean| :: clean[i].key != key
  }

  lemma {:induction false} AssignedEntries(clean: seq<Entry>, key: string, value: Value)
    ensures forall e | e in Assigned(clean, key, value) :: e == Entry(TextKey(key), value) || e in clean
  {
    if clean != [] && clean[0].key != TextKey(key) {
      AssignedEntries(clean[1..], key, value);
    }
  }

  lemma {:induction false} AssignedGrows(clean: seq<Entry>, key: string, value: Value)
    ensures |Assigned(clean, key, value)| == |clean| + 1 <==> NewKey(clean, TextKey(key))
  {
    if clean != [] && clean[0].key != TextKey(key) {
      AssignedGrows(clean[1..], key, value);
      assert clean == [clean[0]] + clean[1..];
    }
  }

  lemma {:induction false} AssignedDistinct(clean: seq<Entry>, key: string, value: Value)
    requires DistinctKeys(clean)
    ensures DistinctKeys(Assigned(clean, key, value))
  {
    if clean != [] && clean[0].key != TextKey(key) {
      var rest := Assigned(clean[1..], key, value);
      AssignedDistinct(clean[1..], key, value);
      AssignedEntries(clean[1..], key, value);
      forall j | 0 <= j < |rest| ensures rest[j].key != clean[0].key {
        assert rest[j] in rest;
        if rest[j] in clean[1..] {
          var i :| 0 <= i < |clean[1..]| && clean[1..][i] == rest[j];
          assert clean[i + 1].key != clean[0].key;
        }
      }
    }
  }

  lemma AssignedWithin(clean: seq<Entry>, key: string, value: Value, depth: nat)
    requires EntriesWithin(clean, depth) && SafeKey(key) && WithinLimits(value, depth)
    ensures EntriesWithin(Assigned(clean, key, value), depth)
  {
    hide WithinLimits, SafeKey, Assigned;
    AssignedEntries(clean, key, value);
    AssignedDistinct(clean, key, value);
    var r := Assigned(clean, key, value);
    forall i | 0 <= i < |r|
      ensures r[i].key.TextKey? && SafeKey(r[i].key.text) && WithinLimits(r[i].value, depth)
    {
      assert r[i] in r;
    }
  }

  /** Every result respects every limit. */
  lemma {:induction false} ResultWithinLimits(v: Value, depth: nat)
    requires Bounded(v, depth).Ok?
    ensures WithinLimits(Bounded(v, depth).value, depth)
    decreases Levels(depth), 1, 0
  {
    match v
    case List(items) => ItemsWithin(Take(items, MAX_ITEMS), depth);
    case Dict(entries) => EntriesResultWithin(Take(entries, MAX_ITEMS), depth);
    case _ =>
  }

  lemma {:induction false} ItemsWithin(items: seq<Value>, depth: nat)
    requires depth <= MAX_DEPTH && Items(items, depth).Ok?
    ensures var r := Items(items, depth).value; forall i | 0 <= i < |r| :: WithinLimits(r[i], depth + 1)
    decreases Levels(depth), 0, |items|
  {
    hide WithinLimits, Bounded;
    if items != [] {
      ItemsWithin(items[..|items| - 1], depth);
      ResultWithinLimits(items[|items| - 1], depth + 1);
    }
  }

  lemma {:induction false} EntriesResultWithin(entries: seq<Entry>, depth: nat)
    requires depth <= MAX_DEPTH && Entries(entries, depth).Ok?
    ensures EntriesWithin(Entries(entries, depth).value, depth + 1)
    decreases Levels(depth), 0, |entries|
  {
    hide EntriesWithin, WithinLimits, Bounded, SafeKey, Assigned;
    if entries == [] {
      NothingWithin(depth + 1);
    } else {
      var last := entries[|entries| - 1];
      EntriesResultWithin(entries[..|entries| - 1], depth);
      if SafeKey(last.key.text) {
        ResultWithinLimits(last.value, depth + 1);
        AssignedWithin(Entries(entries[..|entries| - 1], depth).value, last.key.text,
                       Bounded(last.value, depth + 1).value, depth + 1);
      }
    }
  }

  lemma NothingWithin(depth: nat)
    ensures EntriesWithin([], depth)
  {
  }

  // ---------------------------------------------------------------------------------------------
  // What is left of a value, said of the value and the result alone.

  function Capped(n: nat, cap: nat): nat {
    if n <= cap then n else cap
  }

  /** The first of the first n entries with its key, which is safe. */
  ghost predicate FirstOfKey(entries: seq<Entry>, n: nat, i: nat)
    requires n <= |entries|
  {
    i < n && SafeKey(entries[i].key.text) && forall h | 0 <= h < i :: entries[h].key.text != entries[i].key.text
  }

  /** The last of the first n entries with its key, which is safe. */
  ghost predicate LastOfKey(entries: seq<Entry>, n: nat, i: nat)
    requires n <= |entries|
  {
    i < n && SafeKey(entries[i].key.text) && forall h | i < h < n :: entries[h].key.text != entries[i].key.text
  }

  /** The kept keys are the safe ones of the first n entries, as text, at their first occurrences. */
  ghost predicate KeysAt(entries: seq<Entry>, n: nat, kept: seq<Entry>, firsts: seq<nat>)
    requires n <= |entries|
  {
    && |firsts| == |kept|
    && (forall i, j | 0 <= i < j < |firsts| :: firsts[i] < firsts[j])
    && (forall i :: i in firsts <==> FirstOfKey(entries, n, i))
    && (forall j | 0 <= j < |kept| :: firsts[j] < n && kept[j].key == TextKey(entries[firsts[j]].key.text))
  }

  ghost predicate KeysLeft(entries: seq<Entry>, n: nat, kept: seq<Entry>)
    requires n <= |entries|
  {
    exists firsts :: KeysAt(entries, n, kept, firsts)
  }

  /**
   * Texts keep their first 4096 characters, lists their first 128 items, dictionaries the safe keys of their first
   * 128 entries, in order of first occurrence and each with its last value; a value of another type becomes text.
   */
  ghost predicate LeftOf(v: Value, r: Value)
    decreases v
  {
    match v
    case NonFinite => false
    case Str(s) => r == Str(s[..Capped(|s|, 4096)])
    case Other(text) => r == Str(text[..Capped(|text|, 4096)])
    case List(items) =>
      && r.List? && |r.items| == Capped(|items|, 128)
      && forall i | 0 <= i < |r.items| :: LeftOf(items[i], r.items[i])
    case Dict(entries) =>
      && r.Dict? && KeysLeft(entries, Capped(|entries|, 128), r.entries)
      && forall i, j | 0 <= i < |entries| && LastOfKey(entries, Capped(|entries|, 128), i)
                       && 0 <= j < |r.entries| && r.entries[j].key.text == entries[i].key.text ::
           LeftOf(entries[i].value, r.entries[j].value)
    case _ => r == v
  }

  /** Nothing that is looked at lies more than six levels deep, and no number is infinite or none. */
  ghost predicate Acceptable(v: Value, depth: nat)
    decreases v
  {
    && depth <= 6
    && match v
       case NonFinite => false
       case List(items) => forall i | 0 <= i < |items| && i < 128 :: Acceptable(items[i], depth + 1)
       case Dict(entries) =>
         forall i | 0 <= i < |entries| && i < 128 && SafeKey(entries[i].key.text) ::
           Acceptable(entries[i].value, depth + 1)
       case _ => true
  }

  /** The first thing looked at that is not acceptable is refused for this. */
  ghost predicate RefusedFor(v: Value, depth: nat, e: Error)
    decreases v
  {
    if depth > 6 then e == NestingTooDeep
    else
      match v
      case NonFinite => e == NonFiniteNumber
      case List(items) =>
        exists i :: 0 <= i < |items| && i < 128 && RefusedFor(items[i], depth + 1, e)
                    && forall h | 0 <= h < i :: Acceptable(items[h], depth + 1)
      case Dict(entries) =>
        exists i :: 0 <= i < |entries| && i < 128 && SafeKey(entries[i].key.text)
                    && RefusedFor(entries[i].value, depth + 1, e)
                    && forall h | 0 <= h < i && SafeKey(entries[h].key.text) :: Acceptable(entries[h].value, depth + 1)
      case _ => false
  }

  /** What is returned, or why nothing is. */
  ghost predicate Answers(v: Value, depth: nat, r: Result<Value, Error>) {
    match r
    case Ok(left) => Acceptable(v, depth) && LeftOf(v, left)
    case Err(e) => !Acceptable(v, depth) && RefusedFor(v, depth, e)
  }

  /** _bounded by its effect: every value it returns and every error it raises. */
  lemma {:induction false} BoundedExactly(v: Value, depth: nat)
    ensures Answers(v, depth, Bounded(v, depth))
    decreases v, 1
  {
    if depth <= MAX_DEPTH {
      match v
      case List(_) => ListExactly(v, depth);
      case Dict(_) => DictExactly(v, depth);
      case _ =>
    }
  }

  lemma {:induction false} ListExactly(v: Value, depth: nat)
    requires depth <= MAX_DEPTH && v.List?
    ensures Answers(v, depth, Bounded(v, depth))
    decreases v, 0
  {
    hide Acceptable, LeftOf, RefusedFor;
    var items := v.items;
    forall i | 0 <= i < |items| ensures Answers(items[i], depth + 1, Bounded(items[i], depth + 1)) {
      BoundedExactly(items[i], depth + 1);
    }
    ItemsExactly(items, Capped(|items|, 128), depth);
    assert Take(items, 128) == items[..Capped(|items|, 128)];
    ListAnswers(items, depth);
  }

  lemma {:induction false} ItemsExactly(items: seq<Value>, n: nat, depth: nat)
    requires depth <= MAX_DEPTH && n <= |items|
    requires forall i | 0 <= i < n :: Answers(items[i], depth + 1, Bounded(items[i], depth + 1))
    ensures ItemsAnswer(items, n, depth, Items(items[..n], depth))
    decreases n
  {
    hide Acceptable, LeftOf, RefusedFor, Bounded;
    if n > 0 {
      assert items[..n][..n - 1] == items[..n - 1];
      ItemsExactly(items, n - 1, depth);
    }
  }

  ghost predicate ItemsAnswer(items: seq<Value>, n: nat, depth: nat, r: Result<seq<Value>, Error>)
    requires n <= |items|
  {
    match r
    case Ok(clean) =>
      && |clean| == n
      && forall i | 0 <= i < n :: Acceptable(items[i], depth + 1) && LeftOf(items[i], clean[i])
    case Err(e) =>
      exists i :: 0 <= i < n && !Acceptable(items[i], depth + 1) && RefusedFor(items[i], depth + 1, e)
                  && forall h | 0 <= h < i :: Acceptable(items[h], depth + 1)
  }

  lemma ListAnswers(items: seq<Value>, depth: nat)
    requires depth <= MAX_DEPTH
    requires ItemsAnswer(items, Capped(|items|, 128), depth, Items(Take(items, 128), depth))
    ensures Answers(List(items), depth, Bounded(List(items), depth))
  {
  }

  lemma {:induction false} DictExactly(v: Value, depth: nat)
    requires depth <= MAX_DEPTH && v.Dict?
    ensures Answers(v, depth, Bounded(v, depth))
    decreases v, 0
  {
    hide Acceptable, LeftOf, RefusedFor, SafeKey, Entries;
    var entries := v.entries;
    forall i | 0 <= i < |entries| ensures Answers(entries[i].value, depth + 1, Bounded(entries[i].value, depth + 1)) {
      BoundedExactly(entries[i].value, depth + 1);
    }
    EntriesExactly(entries, Capped(|entries|, 128), depth);
    assert Take(entries, 128) == entries[..Capped(|entries|, 128)];
    DictAnswers(entries, depth);
  }

  /** Each kept value is what is left of the last one under its key. */
  ghost predicate ValuesLeft(entries: seq<Entry>, n: nat, kept: seq<Entry>)
    requires n <= |entries|
  {
    forall i, j | 0 <= i < |entries| && LastOfKey(entries, n, i)
                  && 0 <= j < |kept| && kept[j].key.text == entries[i].key.text ::
      LeftOf(entries[i].value, kept[j].value)
  }

  ghost predicate EntriesAnswer(entries: seq<Entry>, n: nat, depth: nat, r: Result<seq<Entry>, Error>)
    requires n <= |entries|
  {
    match r
    case Ok(kept) =>
      && KeysLeft(entries, n, kept) && ValuesLeft(entries, n, kept)
      && forall i | 0 <= i < n && SafeKey(entries[i].key.text) :: Acceptable(entries[i].value, depth + 1)
    case Err(e) =>
      exists i :: 0 <= i < n && SafeKey(entries[i].key.text)
                  && !Acceptable(entries[i].value, depth + 1) && RefusedFor(entries[i].value, depth + 1, e)
                  && forall h | 0 <= h < i && SafeKey(entries[h].key.text) :: Acceptable(entries[h].value, depth + 1)
  }

  lemma DictAnswers(entries: seq<Entry>, depth: nat)
    requires depth <= MAX_DEPTH
    requires EntriesAnswer(entries, Capped(|entries|, 128), depth, Entries(Take(entries, 128), depth))
    ensures Answers(Dict(entries), depth, Bounded(Dict(entries), depth))
  {
    hide KeysLeft, SafeKey, Entries;
  }

  lemma {:induction false} EntriesExactly(entries: seq<Entry>, n: nat, depth: nat)
    requires depth <= MAX_DEPTH && n <= |entries|
    requires forall i | 0 <= i < n :: Answers(entries[i].value, depth + 1, Bounded(entries[i].value, depth + 1))
    ensures EntriesAnswer(entries, n, depth, Entries(entries[..n], depth))
    decreases n
  {
    hide Acceptable, LeftOf, RefusedFor, Bounded, SafeKey, KeysLeft, ValuesLeft, Assigned;
    if n == 0 {
      NoKeysLeft(entries);
    } else {
      assert entries[..n][..n - 1] == entries[..n - 1];
      EntriesExactly(entries, n - 1, depth);
      var before, last := Entries(entries[..n - 1], depth), entries[n - 1];
      if before.Ok? && !SafeKey(last.key.text) {
        UnsafeKeyPassed(entries, n, before.value);
      } else if before.Ok? && Bounded(last.value, depth + 1).Ok? {
        KeyAssigned(entries, n, before.value, Bounded(last.value, depth + 1).value);
      }
    }
  }

  lemma NoKeysLeft(entries: seq<Entry>)
    ensures KeysLeft(entries, 0, []) && ValuesLeft(entries, 0, [])
  {
    assert KeysAt(entries, 0, [], []);
  }

  lemma UnsafeKeyPassed(entries: seq<Entry>, n: nat, kept: seq<Entry>)
    requires 0 < n <= |entries| && !SafeKey(entries[n - 1].key.text)
    requires KeysLeft(entries, n - 1, kept) && ValuesLeft(entries, n - 1, kept)
    ensures KeysLeft(entries, n, kept) && ValuesLeft(entries, n, kept)
  {
    hide SafeKey, LeftOf;
    var firsts :| KeysAt(entries, n - 1, kept, firsts);
    assert KeysAt(entries, n, kept, firsts);
    forall i | 0 <= i < |entries| && LastOfKey(entries, n, i) ensures LastOfKey(entries, n - 1, i) {
    }
  }

  /** clean[key] = value, by position. */
  lemma {:induction false} AssignedAt(clean: seq<Entry>, key: string, value: Value, j: nat)
    requires j < |clean| && clean[j].key == TextKey(key)
    requires forall i | 0 <= i < j :: clean[i].key != TextKey(key)
    ensures Assigned(clean, key, value) == clean[j := Entry(TextKey(key), value)]
    decreases j
  {
    if j > 0 {
      AssignedAt(clean[1..], key, value, j - 1);
    }
  }

  lemma KeyAssigned(entries: seq<Entry>, n: nat, kept: seq<Entry>, value: Value)
    requires 0 < n <= |entries| && SafeKey(entries[n - 1].key.text) && LeftOf(entries[n - 1].value, value)
    requires KeysLeft(entries, n - 1, kept) && ValuesLeft(entries, n - 1, kept)
    ensures KeysLeft(entries, n, Assigned(kept, entries[n - 1].key.text, value))
    ensures ValuesLeft(entries, n, Assigned(kept, entries[n - 1].key.text, value))
  {
    hide SafeKey, LeftOf, Assigned, KeysAt, ValuesLeft;
    var key := entries[n - 1].key.text;
    var firsts :| KeysAt(entries, n - 1, kept, firsts);
    if j :| 0 <= j < |kept| && kept[j].key == TextKey(key) {
      KeysDiffer(entries, n - 1, kept, firsts);
      AssignedAt(kept, key, value, j);
      KeyRepeated(entries, n, kept, firsts, value, j);
    } else {
      AssignedGrows(kept, key, value);
      KeyAppears(entries, n, kept, firsts, value);
    }
  }

  lemma KeysDiffer(entries: seq<Entry>, n: nat, kept: seq<Entry>, firsts: seq<nat>)
    requires n <= |entries| && KeysAt(entries, n, kept, firsts)
    ensures forall i, j | 0 <= i < j < |kept| :: kept[i].key != kept[j].key
  {
    hide SafeKey;
    forall i, j | 0 <= i < j < |kept| ensures kept[i].key != kept[j].key {
      assert firsts[j] in firsts && FirstOfKey(entries, n, firsts[j]);
      assert firsts[i] < firsts[j];
    }
  }

  lemma KeyRepeated(entries: seq<Entry>, n: nat, kept: seq<Entry>, firsts: seq<nat>, value: Value, j: nat)
    requires 0 < n <= |entries| && SafeKey(entries[n - 1].key.text) && LeftOf(entries[n - 1].value, value)
    requires KeysAt(entries, n - 1, kept, firsts) && ValuesLeft(entries, n - 1, kept)
    requires j < |kept| && kept[j].key == TextKey(entries[n - 1].key.text)
    requires forall i | 0 <= i < |kept| && i != j :: kept[i].key != kept[j].key
    ensures KeysAt(entries, n, kept[j := Entry(TextKey(entries[n - 1].key.text), value)], firsts)
    ensures ValuesLeft(entries, n, kept[j := Entry(TextKey(entries[n - 1].key.text), value)])
  {
    hide SafeKey, LeftOf, ValuesLeft;
    assert firsts[j] in firsts && FirstOfKey(entries, n - 1, firsts[j]);
    assert !FirstOfKey(entries, n, n - 1);
    forall i ensures FirstOfKey(entries, n, i) <==> FirstOfKey(entries, n - 1, i) {
    }
    hide FirstOfKey;
    ValueReplaced(entries, n, kept, value, j);
  }

  lemma ValueReplaced(entries: seq<Entry>, n: nat, kept: seq<Entry>, value: Value, j: nat)
    requires 0 < n <= |entries| && SafeKey(entries[n - 1].key.text) && LeftOf(entries[n - 1].value, value)
    requires ValuesLeft(entries, n - 1, kept)
    requires j < |kept| && kept[j].key == TextKey(entries[n - 1].key.text)
    requires forall i | 0 <= i < |kept| && i != j :: kept[i].key != kept[j].key
    requires forall i | 0 <= i < |kept| :: kept[i].key.TextKey?
    ensures ValuesLeft(entries, n, kept[j := Entry(TextKey(entries[n - 1].key.text), value)])
  {
    hide SafeKey, LeftOf, LastOfKey;
    LastsNext(entries, n);
  }

  lemma LastsNext(entries: seq<Entry>, n: nat)
    requires 0 < n <= |entries| && SafeKey(entries[n - 1].key.text)
    ensures forall i | 0 <= i < |entries| && LastOfKey(entries, n, i) ::
              i == n - 1 || (LastOfKey(entries, n - 1, i) && entries[i].key.text != entries[n - 1].key.text)
  {
  }

  lemma KeyAppears(entries: seq<Entry>, n: nat, kept: seq<Entry>, firsts: seq<nat>, value: Value)
    requires 0 < n <= |entries| && SafeKey(entries[n - 1].key.text) && LeftOf(entries[n - 1].value, value)
    requires KeysAt(entries, n - 1, kept, firsts) && ValuesLeft(entries, n - 1, kept)
    requires forall i | 0 <= i < |kept| :: kept[i].key != TextKey(entries[n - 1].key.text)
    ensures KeysAt(entries, n, kept + [Entry(TextKey(entries[n - 1].key.text), value)], firsts + [n - 1])
    ensures ValuesLeft(entries, n, kept + [Entry(TextKey(entries[n - 1].key.text), value)])
  {
    hide SafeKey, LeftOf;
    forall h | 0 <= h < n - 1 ensures entries[h].key.text != entries[n - 1].key.text {
      SafeKeyKept(entries, n - 1, kept, firsts, h);
    }
    forall i ensures i in firsts + [n - 1] <==> FirstOfKey(entries, n, i) {
    }
    hide FirstOfKey;
    LastsNext(entries, n);
  }

  lemma SafeKeyKept(entries: seq<Entry>, n: nat, kept: seq<Entry>, firsts: seq<nat>, h: nat)
    requires h < n <= |entries| && KeysAt(entries, n, kept, firsts)
    ensures SafeKey(entries[h].key.text) ==>
              exists j :: 0 <= j < |kept| && kept[j].key == TextKey(entries[h].key.text)
  {
    hide SafeKey;
    if SafeKey(entries[h].key.text) {
      var i := EarliestOfKey(entries, n, h);
      assert i in firsts;
      var j :| 0 <= j < |firsts| && firsts[j] == i;
      assert kept[j].key == TextKey(entries[h].key.text);
    }
  }

  lemma {:induction false} EarliestOfKey(entries: seq<Entry>, n: nat, h: nat) returns (i: nat)
    requires h < n <= |entries| && SafeKey(entries[h].key.text)
    ensures i <= h && FirstOfKey(entries, n, i) && entries[i].key.text == entries[h].key.text
    decreases h
  {
    hide SafeKey;
    i := h;
    if k :| 0 <= k < h && entries[k].key.text == entries[h].key.text {
      i := EarliestOfKey(entries, n, k);
    }
  }

  // ---------------------------------------------------------------------------------------------
  // Fixed points.

  /** _bounded leaves a value alone exactly when the value respects every limit, and then it notes nothing. */
  lemma {:induction false} FixedPoints(v: Value, depth: nat, path: string)
    ensures Bounded(v, depth) == Ok(v) <==> WithinLimits(v, depth)
    ensures WithinLimits(v, depth) ==> Notes(v, depth, path) == []
    decreases Levels(depth), 1, 0
  {
    if depth <= MAX_DEPTH {
      match v
      case List(items) =>
        if |items| <= MAX_ITEMS {
          ItemsFixed(items, depth, path);
        }
      case Dict(entries) =>
        if |entries| <= MAX_ITEMS {
          EntriesFixed(entries, depth, path);
        }
      case _ =>
    }
  }

  ghost predicate ItemsOk(items: seq<Value>, depth: nat) {
    forall i | 0 <= i < |items| :: WithinLimits(items[i], depth)
  }

  lemma {:induction false} ItemsFixed(items: seq<Value>, depth: nat, path: string)
    requires depth <= MAX_DEPTH
    ensures Items(items, depth) == Ok(items) <==> ItemsOk(items, depth + 1)
    ensures ItemsOk(items, depth + 1) ==> ItemNotes(items, depth, path) == []
    decreases Levels(depth), 0, |items|
  {
    hide WithinLimits, Bounded;
    if items != [] {
      var before, last := items[..|items| - 1], items[|items| - 1];
      assert items == before + [last];
      ItemsFixed(before, depth, path);
      FixedPoints(last, depth + 1, path + "[]");
      assert ItemsOk(items, depth + 1) <==> ItemsOk(before, depth + 1) && WithinLimits(last, depth + 1);
    }
  }

  lemma EntriesWithinSplit(before: seq<Entry>, last: Entry, depth: nat)
    ensures EntriesWithin(before + [last], depth) <==>
            && EntriesWithin(before, depth)
            && last.key.TextKey? && SafeKey(last.key.text) && WithinLimits(last.value, depth)
            && NewKey(before, last.key)
  {
    hide WithinLimits, SafeKey;
    var all := before + [last];
    assert all[|before|] == last;
    assert forall i | 0 <= i < |before| :: all[i] == before[i];
  }

  lemma {:induction false} EntriesFixed(entries: seq<Entry>, depth: nat, path: string)
    requires depth <= MAX_DEPTH
    ensures Entries(entries, depth) == Ok(entries) <==> EntriesWithin(entries, depth + 1)
    ensures EntriesWithin(entries, depth + 1) ==> EntryNotes(entries, depth, path) == []
    decreases Levels(depth), 0, |entries|
  {
    hide WithinLimits, Bounded, SafeKey, Assigned, EntriesWithin;
    if entries == [] {
      NothingWithin(depth + 1);
    } else {
      var before, last := entries[..|entries| - 1], entries[|entries| - 1];
      assert entries == before + [last];
      EntriesFixed(before, depth, path);
      FixedPoints(last.value, depth + 1, path + "." + last.key.text);
      EntriesWithinSplit(before, last, depth + 1);
      if Entries(before, depth).Ok? && SafeKey(last.key.text) && Bounded(last.value, depth + 1).Ok? {
        AssignedGrows(Entries(before, depth).value, last.key.text, Bounded(last.value, depth + 1).value);
      }
    }
  }

  /** Normalising twice is normalising once, and the second time nothing is lost. */
  lemma Idempotent(v: Value, depth: nat, path: string)
    requires Bounded(v, depth).Ok?
    ensures var r := Bounded(v, depth).value; Bounded(r, depth) == Ok(r) && Notes(r, depth, path) == []
  {
    ResultWithinLimits(v, depth);
    FixedPoints(Bounded(v, depth).value, depth, path);
  }

  // ---------------------------------------------------------------------------------------------
  // Honest about loss.

  /** Somewhere a dictionary has a key that is no text; json.loads never makes one. */
  predicate HasOtherKeys(v: Value) {
    match v
    case List(items) => exists i :: 0 <= i < |items| && HasOtherKeys(items[i])
    case Dict(entries) => exists i :: 0 <= i < |entries| && (entries[i].key.OtherKey? || HasOtherKeys(entries[i].value))
    case _ => false
  }

  /** A dictionary holds no key twice. */
  predicate WellFormed(v: Value) {
    match v
    case List(items) => forall i | 0 <= i < |items| :: WellFormed(items[i])
    case Dict(entries) => DistinctKeys(entries) && forall i | 0 <= i < |entries| :: WellFormed(entries[i].value)
    case _ => true
  }

  /** A well-formed value with text keys that is accepted without a note is within every limit. */
  lemma {:induction false} UnnotedWithin(v: Value, depth: nat, path: string)
    requires WellFormed(v) && !HasOtherKeys(v)
    requires Bounded(v, depth).Ok? && Notes(v, depth, path) == []
    ensures WithinLimits(v, depth)
    decreases Levels(depth), 1, 0
  {
    match v
    case List(items) =>
      ItemsUnnoted(items, depth, path);
    case Dict(entries) =>
      assert PlainEntries(entries);
      EntriesUnnoted(entries, depth, path);
    case _ =>
  }

  lemma {:induction false} ItemsUnnoted(items: seq<Value>, depth: nat, path: string)
    requires depth <= MAX_DEPTH && Items(items, depth).Ok? && ItemNotes(items, depth, path) == []
    requires forall i | 0 <= i < |items| :: WellFormed(items[i]) && !HasOtherKeys(items[i])
    ensures forall i | 0 <= i < |items| :: WithinLimits(items[i], depth + 1)
    decreases Levels(depth), 0, |items|
  {
    hide WithinLimits, Bounded, WellFormed, HasOtherKeys;
    if items != [] {
      ItemsUnnoted(items[..|items| - 1], depth, path);
      UnnotedWithin(items[|items| - 1], depth + 1, path + "[]");
      assert forall i | 0 <= i < |items| - 1 :: items[i] == items[..|items| - 1][i];
    }
  }

  predicate PlainEntries(entries: seq<Entry>) {
    && DistinctKeys(entries)
    && forall i | 0 <= i < |entries| ::
         entries[i].key.TextKey? && WellFormed(entries[i].value) && !HasOtherKeys(entries[i].value)
  }

  lemma PlainSplit(before: seq<Entry>, last: Entry)
    requires PlainEntries(before + [last])
    ensures PlainEntries(before)
    ensures last.key.TextKey? && WellFormed(last.value) && !HasOtherKeys(last.value)
    ensures NewKey(before, last.key)
  {
    hide WellFormed, HasOtherKeys;
    var all := before + [last];
    assert all[|before|] == last;
    assert forall i | 0 <= i < |before| :: all[i] == before[i];
  }

  lemma {:induction false} EntriesUnnoted(entries: seq<Entry>, depth: nat, path: string)
    requires depth <= MAX_DEPTH && Entries(entries, depth).Ok? && EntryNotes(entries, depth, path) == []
    requires PlainEntries(entries)
    ensures EntriesWithin(entries, depth + 1)
    decreases Levels(depth), 0, |entries|
  {
    hide WithinLimits, Bounded, WellFormed, HasOtherKeys, SafeKey, Assigned, EntriesWithin, PlainEntries;
    if entries == [] {
      NothingWithin(depth + 1);
    } else {
      var before, last := entries[..|entries| - 1], entries[|entries| - 1];
      assert entries == before + [last];
      PlainSplit(before, last);
      EntriesUnnoted(before, depth, path);
      UnnotedWithin(last.value, depth + 1, path + "." + last.key.text);
      EntriesWithinSplit(before, last, depth + 1);
    }
  }

  lemma {:induction false} WithinHasNoOtherKeys(v: Value, depth: nat)
    requires WithinLimits(v, depth)
    ensures !HasOtherKeys(v)
    decreases Levels(depth)
  {
    match v
    case List(items) =>
      forall i | 0 <= i < |items| ensures !HasOtherKeys(items[i]) {
        WithinHasNoOtherKeys(items[i], depth + 1);
      }
    case Dict(entries) =>
      forall i | 0 <= i < |entries| ensures !entries[i].key.OtherKey? && !HasOtherKeys(entries[i].value) {
        WithinHasNoOtherKeys(entries[i].value, depth + 1);
      }
    case _ =>
  }

  /**
   * An accepted value comes back changed exactly when something was noted or a dictionary key is no text: the
   * audit tells the whole truth about every value whose keys are text, as those of a JSON payload are.
   */
  lemma ChangedExactly(v: Value, depth: nat, path: string)
    requires WellFormed(v) && Bounded(v, depth).Ok?
    ensures Bounded(v, depth).value != v <==> Notes(v, depth, path) != [] || HasOtherKeys(v)
  {
    hide Bounded, Notes, WithinLimits, HasOtherKeys, WellFormed;
    FixedPoints(v, depth, path);
    if WithinLimits(v, depth) {
      WithinHasNoOtherKeys(v, depth);
    } else if Notes(v, depth, path) == [] && !HasOtherKeys(v) {
      UnnotedWithin(v, depth, path);
    }
  }

  /** A numeric key turns into text and no note says so. */
  lemma SilentRename()
    ensures var v := Dict([Entry(OtherKey("1"), Null)]);
            Bounded(v, 0) == Ok(Dict([Entry(TextKey("1"), Null)])) && Notes(v, 0, "observed") == []
  {
    var entries := [Entry(OtherKey("1"), Null)];
    assert entries[..0] == [];
    assert SafeChar("1"[0]);
    assert Entries(entries, 0) == Ok([Entry(TextKey("1"), Null)]);
    assert EntryNotes(entries, 0, "observed") == [];
  }

  // ---------------------------------------------------------------------------------------------
  // The audit record and the summary.

  function CountOf(trail: seq<Note>, key: AuditKey): nat {
    if trail == [] then 0
    else CountOf(trail[..|trail| - 1], key) + if trail[|trail| - 1].key == key then 1 else 0
  }

  function PathsOf(trail: seq<Note>, key: AuditKey): seq<string> {
    if trail == [] then []
    else
      var paths := PathsOf(trail[..|trail| - 1], key);
      var last := trail[|trail| - 1];
      if last.key == key && |paths| < MAX_AUDIT_PATHS && last.path !in paths then paths + [last.path] else paths
  }

  ghost predicate NotedAt(trail: seq<Note>, key: AuditKey, path: string) {
    exists i :: 0 <= i < |trail| && trail[i] == Note(key, path)
  }

  /** The listed paths are real and distinct, at most 64, and all of them when there are fewer. */
  lemma {:induction false} PathsListed(trail: seq<Note>, key: AuditKey)
    ensures var paths := PathsOf(trail, key);
            && |paths| <= 64
            && (forall i, j | 0 <= i < j < |paths| :: paths[i] != paths[j])
            && (forall p | p in paths :: NotedAt(trail, key, p))
            && (|paths| < 64 ==> forall p | NotedAt(trail, key, p) :: p in paths)
    ensures CountOf(trail, key) == 0 <==> PathsOf(trail, key) == []
    ensures CountOf(trail, key) == 0 <==> forall p :: !NotedAt(trail, key, p)
  {
    if trail != [] {
      var before, last := trail[..|trail| - 1], trail[|trail| - 1];
      PathsListed(before, key);
      forall p ensures NotedAt(trail, key, p) <==> NotedAt(before, key, p) || last == Note(key, p) {
      }
      if last.key == key {
        assert NotedAt(trail, key, last.path);
      }
    }
  }

  lemma NoteAdded(trail: seq<Note>, key: AuditKey, path: string)
    ensures var after := trail + [Note(key, path)];
            && (forall k :: CountOf(after, k) == CountOf(trail, k) + if k == key then 1 else 0)
            && (forall k | k != key :: PathsOf(after, k) == PathsOf(trail, k))
            && PathsOf(after, key) ==
                 var paths := PathsOf(trail, key);
                 if |paths| < MAX_AUDIT_PATHS && path !in paths then paths + [path] else paths
  {
    assert (trail + [Note(key, path)])[..|trail|] == trail;
  }

  /** The value, or one inside it that is looked at, loses something of this kind at this path. */
  ghost predicate Lost(v: Value, depth: nat, path: string, key: AuditKey, at: string)
    decreases v
  {
    && depth <= 6
    && match v
       case Str(s) => key == TruncatedStrings && at == path && |s| > 4096
       case Other(text) => at == path && (key == CoercedValues || (key == TruncatedStrings && |text| > 4096))
       case List(items) =>
         || (key == TruncatedCollections && at == path && |items| > 128)
         || exists i :: 0 <= i < |items| && i < 128 && Lost(items[i], depth + 1, path + "[]", key, at)
       case Dict(entries) =>
         || (key == TruncatedCollections && at == path && |entries| > 128)
         || (exists i :: 0 <= i < |entries| && i < 128 && !SafeKey(entries[i].key.text)
                         && key == DroppedKeys && at == path)
         || (exists i :: 0 <= i < |entries| && i < 128 && SafeKey(entries[i].key.text)
                         && Lost(entries[i].value, depth + 1, path + "." + entries[i].key.text, key, at))
       case _ => false
  }

  lemma NotedJoined(a: seq<Note>, b: seq<Note>, key: AuditKey, at: string)
    ensures NotedAt(a + b, key, at) <==> NotedAt(a, key, at) || NotedAt(b, key, at)
  {
    if i :| 0 <= i < |a| && a[i] == Note(key, at) {
      assert (a + b)[i] == Note(key, at);
    }
    if i :| 0 <= i < |b| && b[i] == Note(key, at) {
      assert (a + b)[|a| + i] == Note(key, at);
    }
  }

  lemma NotedIf(condition: bool, noted: AuditKey, path: string, key: AuditKey, at: string)
    ensures NotedAt(NoteIf(condition, noted, path), key, at) <==> condition && key == noted && at == path
  {
    if condition {
      assert NoteIf(condition, noted, path)[0] == Note(noted, path);
    }
  }

  /** A successful pass notes each kind of loss exactly at the paths where there is one. */
  lemma {:induction false} NotesExactly(v: Value, depth: nat, path: string, key: AuditKey, at: string)
    ensures NotedAt(Notes(v, depth, path), key, at) <==> Lost(v, depth, path, key, at)
    decreases v, 1
  {
    if depth <= MAX_DEPTH {
      match v
      case Other(text) =>
        NotedIf(|text| > MAX_STRING, TruncatedStrings, path, key, at);
        NotedIf(true, CoercedValues, path, key, at);
        NotedJoined([Note(CoercedValues, path)], NoteIf(|text| > MAX_STRING, TruncatedStrings, path), key, at);
      case List(_) => ListNotesExactly(v, depth, path, key, at);
      case Dict(_) => DictNotesExactly(v, depth, path, key, at);
      case Str(s) => NotedIf(|s| > MAX_STRING, TruncatedStrings, path, key, at);
      case _ =>
    }
  }

  lemma {:induction false} ListNotesExactly(v: Value, depth: nat, path: string, key: AuditKey, at: string)
    requires depth <= MAX_DEPTH && v.List?
    ensures NotedAt(Notes(v, depth, path), key, at) <==> Lost(v, depth, path, key, at)
    decreases v, 0
  {
    hide NotedAt, NoteIf;
    var items := v.items;
    forall i | 0 <= i < |items|
      ensures NotedAt(Notes(items[i], depth + 1, path + "[]"), key, at)
              <==> Lost(items[i], depth + 1, path + "[]", key, at)
    {
      NotesExactly(items[i], depth + 1, path + "[]", key, at);
    }
    hide Notes, Lost;
    ItemNotesExactly(items, Capped(|items|, 128), depth, path, key, at);
    ListNotesJoined(v, depth, path, key, at);
  }

  lemma ListNotesJoined(v: Value, depth: nat, path: string, key: AuditKey, at: string)
    requires depth <= MAX_DEPTH && v.List?
    requires NotedAt(ItemNotes(v.items[..Capped(|v.items|, 128)], depth, path), key, at)
             <==> exists i :: 0 <= i < |v.items| && i < 128 && Lost(v.items[i], depth + 1, path + "[]", key, at)
    ensures NotedAt(Notes(v, depth, path), key, at) <==> Lost(v, depth, path, key, at)
  {
    hide NotedAt, NoteIf, ItemNotes;
    var n := |v.items|;
    assert Take(v.items, 128) == v.items[..Capped(n, 128)];
    NotedIf(n > MAX_ITEMS, TruncatedCollections, path, key, at);
    NotedJoined(NoteIf(n > MAX_ITEMS, TruncatedCollections, path),
                ItemNotes(Take(v.items, MAX_ITEMS), depth, path), key, at);
  }

  lemma {:induction false} ItemNotesExactly(items: seq<Value>, n: nat, depth: nat, path: string, key: AuditKey,
                                            at: string)
    requires depth <= MAX_DEPTH && n <= |items|
    requires forall i | 0 <= i < n :: NotedAt(Notes(items[i], depth + 1, path + "[]"), key, at)
                                      <==> Lost(items[i], depth + 1, path + "[]", key, at)
    ensures NotedAt(ItemNotes(items[..n], depth, path), key, at)
            <==> exists i :: 0 <= i < n && Lost(items[i], depth + 1, path + "[]", key, at)
    decreases n
  {
    hide Notes, Lost, NotedAt;
    if n == 0 {
      NothingNoted(key, at);
    } else {
      assert items[..n][..n - 1] == items[..n - 1];
      ItemNotesExactly(items, n - 1, depth, path, key, at);
      NotedJoined(ItemNotes(items[..n - 1], depth, path), Notes(items[n - 1], depth + 1, path + "[]"), key, at);
    }
  }

  lemma NothingNoted(key: AuditKey, at: string)
    ensures !NotedAt([], key, at)
  {
  }

  lemma {:induction false} DictNotesExactly(v: Value, depth: nat, path: string, key: AuditKey, at: string)
    requires depth <= MAX_DEPTH && v.Dict?
    ensures NotedAt(Notes(v, depth, path), key, at) <==> Lost(v, depth, path, key, at)
    decreases v, 0
  {
    hide NotedAt, NoteIf, SafeKey;
    var entries := v.entries;
    forall i | 0 <= i < |entries|
      ensures NotedAt(Notes(entries[i].value, depth + 1, path + "." + entries[i].key.text), key, at)
              <==> Lost(entries[i].value, depth + 1, path + "." + entries[i].key.text, key, at)
    {
      NotesExactly(entries[i].value, depth + 1, path + "." + entries[i].key.text, key, at);
    }
    hide Notes, Lost;
    EntryNotesExactly(entries, Capped(|entries|, 128), depth, path, key, at);
    DictNotesJoined(v, depth, path, key, at);
  }

  /** What reading one entry loses. */
  ghost predicate EntryLost(e: Entry, depth: nat, path: string, key: AuditKey, at: string) {
    if SafeKey(e.key.text) then Lost(e.value, depth, path + "." + e.key.text, key, at)
    else key == DroppedKeys && at == path
  }

  lemma DictNotesJoined(v: Value, depth: nat, path: string, key: AuditKey, at: string)
    requires depth <= MAX_DEPTH && v.Dict?
    requires NotedAt(EntryNotes(v.entries[..Capped(|v.entries|, 128)], depth, path), key, at)
             <==> exists i :: 0 <= i < |v.entries| && i < 128 && EntryLost(v.entries[i], depth + 1, path, key, at)
    ensures NotedAt(Notes(v, depth, path), key, at) <==> Lost(v, depth, path, key, at)
  {
    hide NotedAt, NoteIf, EntryNotes, SafeKey;
    var n := |v.entries|;
    assert Take(v.entries, 128) == v.entries[..Capped(n, 128)];
    NotedIf(n > MAX_ITEMS, TruncatedCollections, path, key, at);
    NotedJoined(NoteIf(n > MAX_ITEMS, TruncatedCollections, path),
                EntryNotes(Take(v.entries, MAX_ITEMS), depth, path), key, at);
  }

  lemma {:induction false} EntryNotesExactly(entries: seq<Entry>, n: nat, depth: nat, path: string, key: AuditKey,
                                             at: string)
    requires depth <= MAX_DEPTH && n <= |entries|
    requires forall i | 0 <= i < n ::
               NotedAt(Notes(entries[i].value, depth + 1, path + "." + entries[i].key.text), key, at)
               <==> Lost(entries[i].value, depth + 1, path + "." + entries[i].key.text, key, at)
    ensures NotedAt(EntryNotes(entries[..n], depth, path), key, at)
            <==> exists i :: 0 <= i < n && EntryLost(entries[i], depth + 1, path, key, at)
    decreases n
  {
    hide Notes, Lost, NotedAt, SafeKey;
    if n == 0 {
      NothingNoted(key, at);
    } else {
      var last := entries[n - 1];
      assert entries[..n][..n - 1] == entries[..n - 1];
      EntryNotesExactly(entries, n - 1, depth, path, key, at);
      NotedIf(true, DroppedKeys, path, key, at);
      NotedJoined(EntryNotes(entries[..n - 1], depth, path),
                  if SafeKey(last.key.text) then Notes(last.value, depth + 1, path + "." + last.key.text)
                  else [Note(DroppedKeys, path)], key, at);
    }
  }

  ghost predicate HasNote(trail: seq<Note>, key: AuditKey) {
    exists i :: 0 <= i < |trail| && trail[i].key == key
  }

  /** Something was cut, dropped or coerced. */
  ghost predicate Loss(trail: seq<Note>) {
    exists key :: key != SecretsRedacted && HasNote(trail, key)
  }

  lemma LossKeys(trail: seq<Note>)
    ensures Loss(trail) <==>
            || HasNote(trail, TruncatedStrings) || HasNote(trail, TruncatedCollections)
            || HasNote(trail, DroppedKeys) || HasNote(trail, CoercedValues)
  {
  }

  lemma CountPositive(trail: seq<Note>, key: AuditKey)
    ensures CountOf(trail, key) > 0 <==> HasNote(trail, key)
    ensures CountOf(trail, key) > 0 <==> PathsOf(trail, key) != []
  {
    PathsListed(trail, key);
    forall i | 0 <= i < |trail| && trail[i].key == key ensures CountOf(trail, key) > 0 {
      assert NotedAt(trail, key, trail[i].path);
    }
    if CountOf(trail, key) > 0 {
      var p :| NotedAt(trail, key, p);
      var i :| 0 <= i < |trail| && trail[i] == Note(key, p);
      assert trail[i].key == key;
    }
  }

  datatype Summary = Summary(lossy: bool, truncated: bool, redacted: bool, counts: map<AuditKey, nat>,
                             paths: map<AuditKey, seq<string>>)

  const AUDIT_KEYS: set<AuditKey> :=
    {TruncatedStrings, TruncatedCollections, DroppedKeys, CoercedValues, SecretsRedacted}

  function CountIn(counts: map<AuditKey, nat>, key: AuditKey): nat {
    if key in counts then counts[key] else 0
  }

  function PathsIn(paths: map<AuditKey, seq<string>>, key: AuditKey): seq<string> {
    if key in paths then paths[key] else []
  }

  /** The dictionary holds the counts and path lists of the trail. */
  ghost predicate Recorded(counts: map<AuditKey, nat>, paths: map<AuditKey, seq<string>>, trail: seq<Note>) {
    && (forall k :: CountIn(counts, k) == CountOf(trail, k))
    && (forall k :: PathsIn(paths, k) == PathsOf(trail, k))
  }

  class Audit {
    var counts: map<AuditKey, nat>
    var paths: map<AuditKey, seq<string>>
    /** Every note recorded so far. */
    ghost var trail: seq<Note>

    ghost predicate Valid()
      reads this
    {
      Recorded(counts, paths, trail)
    }

    constructor ()
      ensures Valid() && trail == []
    {
      counts, paths, trail := map[], map[], [];
    }

    /** _record_audit. */
    method RecordAudit(key: AuditKey, path: string)
      requires Valid()
      modifies this
      ensures Valid() && trail == old(trail) + [Note(key, path)]
    {
      hide CountOf, PathsOf;
      NoteAdded(trail, key, path);
      counts := counts[key := CountIn(counts, key) + 1];
      if key !in paths {
        paths := paths[key := []];
      }
      if |paths[key]| < MAX_AUDIT_PATHS && path !in paths[key] {
        paths := paths[key := paths[key] + [path]];
      }
      trail := trail + [Note(key, path)];
    }

    /** _normalization_summary. */
    method NormalizationSummary() returns (s: Summary)
      requires Valid()
      ensures Summarises(s, trail)
      ensures s.truncated <==> HasNote(trail, TruncatedStrings) || HasNote(trail, TruncatedCollections)
      ensures s.counts.Keys == AUDIT_KEYS && forall k | k in s.counts :: s.counts[k] == CountOf(trail, k)
      ensures forall k :: k in s.paths <==> k in AUDIT_KEYS && HasNote(trail, k)
      ensures forall k | k in s.paths :: s.paths[k] == PathsOf(trail, k)
    {
      hide CountOf, PathsOf, HasNote, Loss;
      LossKeys(trail);
      forall k: AuditKey
        ensures CountOf(trail, k) > 0 <==> HasNote(trail, k)
        ensures CountOf(trail, k) > 0 <==> PathsOf(trail, k) != []
      {
        CountPositive(trail, k);
      }
      var all := map k | k in AUDIT_KEYS :: CountIn(counts, k);
      var lossy := all[TruncatedStrings] > 0 || all[TruncatedCollections] > 0 || all[DroppedKeys] > 0
                   || all[CoercedValues] > 0;
      var listed := map k | k in AUDIT_KEYS && k in paths && paths[k] != [] :: paths[k];
      forall k: AuditKey ensures k in AUDIT_KEYS {
        match k
        case TruncatedStrings =>
        case TruncatedCollections =>
        case DroppedKeys =>
        case CoercedValues =>
        case SecretsRedacted =>
      }
      s := Summary(lossy, all[TruncatedStrings] > 0 || all[TruncatedCollections] > 0, all[SecretsRedacted] > 0,
                   all, listed);
    }
  }

  // ---------------------------------------------------------------------------------------------
  // _bounded with its audit.

  /** The recursion over one value, with its loops over items and entries. */
  method Normalise(v: Value, depth: nat, path: string, audit: Audit) returns (r: Result<Value, Error>)
    requires audit.Valid()
    modifies audit
    ensures r == Bounded(v, depth) && Answers(v, depth, r)
    ensures audit.Valid() && old(audit.trail) <= audit.trail
    ensures r.Ok? ==> audit.trail == old(audit.trail) + Notes(v, depth, path)
    decreases Levels(depth)
  {
    hide CountOf, PathsOf, Assigned, SafeKey, Answers;
    BoundedExactly(v, depth);
    if depth > MAX_DEPTH {
      return Err(NestingTooDeep);
    }
    match v
    case Null =>
      return Ok(v);
    case Bool(_) =>
      return Ok(v);
    case Int(_) =>
      return Ok(v);
    case Finite(_) =>
      return Ok(v);
    case NonFinite =>
      return Err(NonFiniteNumber);
    case Str(s) =>
      if |s| > MAX_STRING {
        audit.RecordAudit(TruncatedStrings, path);
      }
      return Ok(Str(Take(s, MAX_STRING)));
    case List(items) =>
      r := NormaliseList(items, depth, path, audit);
    case Dict(entries) =>
      r := NormaliseDict(entries, depth, path, audit);
    case Other(text) =>
      audit.RecordAudit(CoercedValues, path);
      if |text| > MAX_STRING {
        audit.RecordAudit(TruncatedStrings, path);
      }
      return Ok(Str(Take(text, MAX_STRING)));
  }

  lemma NothingRead(depth: nat, path: string)
    requires depth <= MAX_DEPTH
    ensures Items([], depth) == Ok([]) && ItemNotes([], depth, path) == []
    ensures Entries([], depth) == Ok([]) && EntryNotes([], depth, path) == []
  {
  }

  lemma ListResult(items: seq<Value>, depth: nat, path: string)
    requires depth <= MAX_DEPTH
    ensures var r := Items(Take(items, MAX_ITEMS), depth);
            Bounded(List(items), depth) == if r.Ok? then Ok(List(r.value)) else Err(r.error)
    ensures Notes(List(items), depth, path) ==
            NoteIf(|items| > MAX_ITEMS, TruncatedCollections, path) + ItemNotes(Take(items, MAX_ITEMS), depth, path)
  {
  }

  lemma NextItem(items: seq<Value>, i: nat, depth: nat, path: string)
    requires depth <= MAX_DEPTH && i < |items| && Items(items[..i], depth).Ok?
    ensures var r := Bounded(items[i], depth + 1);
            Items(items[..i + 1], depth) ==
            if r.Ok? then Ok(Items(items[..i], depth).value + [r.value]) else Err(r.error)
    ensures ItemNotes(items[..i + 1], depth, path) ==
            ItemNotes(items[..i], depth, path) + Notes(items[i], depth + 1, path + "[]")
  {
    hide Bounded, Notes;
    assert items[..i + 1][..i] == items[..i] && items[..i + 1][i] == items[i];
  }

  method NormaliseList(items: seq<Value>, depth: nat, path: string, audit: Audit) returns (r: Result<Value, Error>)
    requires audit.Valid() && depth <= MAX_DEPTH
    modifies audit
    ensures r == Bounded(List(items), depth)
    ensures audit.Valid() && old(audit.trail) <= audit.trail
    ensures r.Ok? ==> audit.trail == old(audit.trail) + Notes(List(items), depth, path)
    decreases Levels(depth), 0
  {
    hide CountOf, PathsOf, Audit.Valid, Bounded, Notes, Items, ItemNotes, Answers;
    ListResult(items, depth, path);
    if |items| > MAX_ITEMS {
      audit.RecordAudit(TruncatedCollections, path);
    }
    ghost var noted := audit.trail;
    var taken := Take(items, MAX_ITEMS);
    var clean: seq<Value> := [];
    NothingRead(depth, path);
    for i := 0 to |taken|
      invariant audit.Valid() && old(audit.trail) <= audit.trail
      invariant Items(taken[..i], depth) == Ok(clean)
      invariant audit.trail == noted + ItemNotes(taken[..i], depth, path)
    {
      NextItem(taken, i, depth, path);
      var item := Normalise(taken[i], depth + 1, path + "[]", audit);
      if item.Err? {
        ItemErrorStays(taken, i + 1, depth, item.error);
        return Err(item.error);
      }
      clean := clean + [item.value];
    }
    assert taken[..|taken|] == taken;
    return Ok(List(clean));
  }

  lemma {:induction false} ItemErrorStays(items: seq<Value>, k: nat, depth: nat, e: Error)
    requires k <= |items| && depth <= MAX_DEPTH && Items(items[..k], depth) == Err(e)
    ensures Items(items, depth) == Err(e)
    decreases |items|
  {
    if k == |items| {
      assert items[..k] == items;
    } else {
      assert items[..|items| - 1][..k] == items[..k];
      ItemErrorStays(items[..|items| - 1], k, depth, e);
    }
  }

  lemma DictResult(entries: seq<Entry>, depth: nat, path: string)
    requires depth <= MAX_DEPTH
    ensures var r := Entries(Take(entries, MAX_ITEMS), depth);
            Bounded(Dict(entries), depth) == if r.Ok? then Ok(Dict(r.value)) else Err(r.error)
    ensures Notes(Dict(entries), depth, path) ==
            NoteIf(|entries| > MAX_ITEMS, TruncatedCollections, path)
            + EntryNotes(Take(entries, MAX_ITEMS), depth, path)
  {
  }

  lemma NextEntry(entries: seq<Entry>, i: nat, depth: nat, path: string)
    requires depth <= MAX_DEPTH && i < |entries| && Entries(entries[..i], depth).Ok?
    ensures var clean, key := Entries(entries[..i], depth).value, entries[i].key.text;
            var r := Bounded(entries[i].value, depth + 1);
            && Entries(entries[..i + 1], depth) ==
                 (if !SafeKey(key) then Ok(clean)
                  else if r.Ok? then Ok(Assigned(clean, key, r.value))
                  else Err(r.error))
            && EntryNotes(entries[..i + 1], depth, path) ==
                 EntryNotes(entries[..i], depth, path) +
                 if SafeKey(key) then Notes(entries[i].value, depth + 1, path + "." + key)
                 else [Note(DroppedKeys, path)]
  {
    hide Bounded, Notes, SafeKey, Assigned;
    assert entries[..i + 1][..i] == entries[..i] && entries[..i + 1][i] == entries[i];
  }

  method NormaliseDict(entries: seq<Entry>, depth: nat, path: string, audit: Audit) returns (r: Result<Value, Error>)
    requires audit.Valid() && depth <= MAX_DEPTH
    modifies audit
    ensures r == Bounded(Dict(entries), depth)
    ensures audit.Valid() && old(audit.trail) <= audit.trail
    ensures r.Ok? ==> audit.trail == old(audit.trail) + Notes(Dict(entries), depth, path)
    decreases Levels(depth), 0
  {
    hide CountOf, PathsOf, Assigned, SafeKey, Audit.Valid, Bounded, Notes, Entries, EntryNotes, Answers;
    DictResult(entries, depth, path);
    if |entries| > MAX_ITEMS {
      audit.RecordAudit(TruncatedCollections, path);
    }
    ghost var noted := audit.trail;
    var taken := Take(entries, MAX_ITEMS);
    var clean: seq<Entry> := [];
    NothingRead(depth, path);
    for i := 0 to |taken|
      invariant audit.Valid() && old(audit.trail) <= audit.trail
      invariant Entries(taken[..i], depth) == Ok(clean)
      invariant audit.trail == noted + EntryNotes(taken[..i], depth, path)
    {
      NextEntry(taken, i, depth, path);
      var key := taken[i].key.text;
      if !SafeKey(key) {
        audit.RecordAudit(DroppedKeys, path);
        continue;
      }
      var value := Normalise(taken[i].value, depth + 1, path + "." + key, audit);
      if value.Err? {
        EntryErrorStays(taken, i + 1, depth, value.error);
        return Err(value.error);
      }
      clean := Assigned(clean, key, value.value);
    }
    assert taken[..|taken|] == taken;
    return Ok(Dict(clean));
  }

  lemma {:induction false} EntryErrorStays(entries: seq<Entry>, k: nat, depth: nat, e: Error)
    requires k <= |entries| && depth <= MAX_DEPTH && Entries(entries[..k], depth) == Err(e)
    ensures Entries(entries, depth) == Err(e)
    decreases |entries|
  {
    if k == |entries| {
      assert entries[..k] == entries;
    } else {
      assert entries[..|entries| - 1][..k] == entries[..k];
      EntryErrorStays(entries[..|entries| - 1], k, depth, e);
    }
  }

  // ---------------------------------------------------------------------------------------------
  // A whole event: redaction notes, then the notes of its parts (normalize_event).

  ghost predicate AllLosses(notes: seq<Note>) {
    forall i | 0 <= i < |notes| :: notes[i].key != SecretsRedacted
  }

  lemma {:induction false} NotesAreLosses(v: Value, depth: nat, path: string)
    ensures AllLosses(Notes(v, depth, path))
    decreases Levels(depth), 1, 0
  {
    if depth <= MAX_DEPTH {
      match v
      case List(items) => ItemNotesAreLosses(Take(items, MAX_ITEMS), depth, path);
      case Dict(entries) => EntryNotesAreLosses(Take(entries, MAX_ITEMS), depth, path);
      case _ =>
    }
  }

  lemma {:induction false} ItemNotesAreLosses(items: seq<Value>, depth: nat, path: string)
    requires depth <= MAX_DEPTH
    ensures AllLosses(ItemNotes(items, depth, path))
    decreases Levels(depth), 0, |items|
  {
    hide Notes;
    if items != [] {
      ItemNotesAreLosses(items[..|items| - 1], depth, path);
      NotesAreLosses(items[|items| - 1], depth + 1, path + "[]");
    }
  }

  lemma {:induction false} EntryNotesAreLosses(entries: seq<Entry>, depth: nat, path: string)
    requires depth <= MAX_DEPTH
    ensures AllLosses(EntryNotes(entries, depth, path))
    decreases Levels(depth), 0, |entries|
  {
    hide Notes;
    if entries != [] {
      var last := entries[|entries| - 1];
      EntryNotesAreLosses(entries[..|entries| - 1], depth, path);
      NotesAreLosses(last.value, depth + 1, path + "." + last.key.text);
    }
  }

  datatype Part = Part(value: Value, path: string)

  function PartNotes(parts: seq<Part>): seq<Note> {
    if parts == [] then []
    else PartNotes(parts[..|parts| - 1]) + Notes(parts[|parts| - 1].value, 0, parts[|parts| - 1].path)
  }

  ghost predicate Accepted(p: Part) {
    WellFormed(p.value) && !HasOtherKeys(p.value) && Bounded(p.value, 0).Ok?
  }

  ghost predicate Changed(p: Part) {
    Accepted(p) && Bounded(p.value, 0).value != p.value
  }

  lemma {:induction false} PartNotesExactly(parts: seq<Part>)
    requires forall i | 0 <= i < |parts| :: Accepted(parts[i])
    ensures AllLosses(PartNotes(parts))
    ensures PartNotes(parts) != [] <==> exists i :: 0 <= i < |parts| && Changed(parts[i])
  {
    hide Notes, Bounded, WellFormed, HasOtherKeys;
    if parts != [] {
      var before, last := parts[..|parts| - 1], parts[|parts| - 1];
      assert forall i | 0 <= i < |before| :: before[i] == parts[i];
      PartNotesExactly(before);
      NotesAreLosses(last.value, 0, last.path);
      ChangedExactly(last.value, 0, last.path);
      assert Changed(last) <==> Notes(last.value, 0, last.path) != [];
      assert (exists i :: 0 <= i < |parts| && Changed(parts[i]))
        <==> (exists i :: 0 <= i < |before| && Changed(before[i])) || Changed(last);
    }
  }

  /** The lossy flag is set exactly when normalisation changed a part of the event; redaction alone does not set it. */
  lemma LossyExactly(redactions: seq<Note>, parts: seq<Part>)
    requires forall i | 0 <= i < |redactions| :: redactions[i].key == SecretsRedacted
    requires forall i | 0 <= i < |parts| :: Accepted(parts[i])
    ensures Loss(redactions + PartNotes(parts)) <==> exists i :: 0 <= i < |parts| && Changed(parts[i])
  {
    hide Changed, Accepted;
    PartNotesExactly(parts);
    var notes := PartNotes(parts);
    var trail := redactions + notes;
    if notes != [] {
      assert trail[|redactions|] == notes[0];
      assert HasNote(trail, notes[0].key);
    }
  }

  /** The four free-form fields of a payload; a missing one reads as Null. */
  datatype Payload = Payload(observed: Value, enrichment: Value, derived: Value, hypotheses: Value)

  /** _redact_credentials: the observed fields as they go on, and whether a secret was replaced. */
  datatype Redacted = Redacted(observed: Value, replaced: bool)

  function OrEmpty(v: Value, empty: Value): Value {
    if v.Null? then empty else v
  }

  /** The shape checks, which come before anything else. */
  function Misshapen(p: Payload): Option<string> {
    if !OrEmpty(p.observed, Dict([])).Dict? then Some("observed")
    else if !OrEmpty(p.enrichment, Dict([])).Dict? then Some("enrichment")
    else if !OrEmpty(p.derived, Dict([])).Dict? then Some("derived")
    else if !OrEmpty(p.hypotheses, List([])).List? then Some("hypotheses")
    else None
  }

  /** The values normalised, in order, each under the path of its field. */
  function PartsOf(redact: Value -> Redacted, p: Payload): seq<Part> {
    [Part(redact(OrEmpty(p.observed, Dict([]))).observed, "observed"),
     Part(OrEmpty(p.enrichment, Dict([])), "enrichment"),
     Part(OrEmpty(p.derived, Dict([])), "derived"),
     Part(OrEmpty(p.hypotheses, List([])), "hypotheses")]
  }

  datatype Normalised = Normalised(values: seq<Value>, summary: Summary)

  /** The first part that is refused decides the error. */
  ghost predicate FailsAt(parts: seq<Part>, k: nat, e: Error) {
    && k < |parts| && Bounded(parts[k].value, 0) == Err(e)
    && forall i | 0 <= i < k :: Bounded(parts[i].value, 0).Ok?
  }

  ghost predicate LostIn(parts: seq<Part>, key: AuditKey, at: string) {
    exists i :: 0 <= i < |parts| && Lost(parts[i].value, 0, parts[i].path, key, at)
  }

  /** The paths listed under a kind of loss are places that lose something of it: all of them, or 64. */
  ghost predicate ListsLosses(parts: seq<Part>, s: Summary, key: AuditKey) {
    var listed := PathsIn(s.paths, key);
    && |listed| <= 64
    && (forall at | at in listed :: LostIn(parts, key, at))
    && (|listed| < 64 ==> forall at | LostIn(parts, key, at) :: at in listed)
    && (CountIn(s.counts, key) > 0 <==> exists at :: LostIn(parts, key, at))
  }

  lemma {:induction false} PartNotesAre(parts: seq<Part>, key: AuditKey, at: string)
    ensures NotedAt(PartNotes(parts), key, at) <==> LostIn(parts, key, at)
  {
    hide NotedAt, Notes, Lost;
    if parts == [] {
      NothingNoted(key, at);
    } else {
      var front, last := parts[..|parts| - 1], parts[|parts| - 1];
      PartNotesAre(front, key, at);
      NotesExactly(last.value, 0, last.path, key, at);
      NotedJoined(PartNotes(front), Notes(last.value, 0, last.path), key, at);
      assert LostIn(parts, key, at) <==> LostIn(front, key, at) || Lost(last.value, 0, last.path, key, at);
    }
  }

  lemma SummaryListsLosses(redactions: seq<Note>, parts: seq<Part>, s: Summary, key: AuditKey)
    requires forall i | 0 <= i < |redactions| :: redactions[i].key == SecretsRedacted
    requires key != SecretsRedacted
    requires PathsIn(s.paths, key) == PathsOf(redactions + PartNotes(parts), key)
    requires CountIn(s.counts, key) == CountOf(redactions + PartNotes(parts), key)
    ensures ListsLosses(parts, s, key)
  {
    hide NotedAt, CountOf, PathsOf, PartNotes, LostIn;
    PathsListed(redactions + PartNotes(parts), key);
    forall at ensures NotedAt(redactions + PartNotes(parts), key, at) <==> LostIn(parts, key, at) {
      PartNotesAre(parts, key, at);
      NotedJoined(redactions, PartNotes(parts), key, at);
      OtherwiseNoted(redactions, key, at);
    }
  }

  lemma OtherwiseNoted(redactions: seq<Note>, key: AuditKey, at: string)
    requires forall i | 0 <= i < |redactions| :: redactions[i].key == SecretsRedacted
    requires key != SecretsRedacted
    ensures !NotedAt(redactions, key, at)
  {
  }

  /** The summary is that of the trail. */
  ghost predicate Summarises(s: Summary, trail: seq<Note>) {
    && (s.lossy <==> Loss(trail))
    && (s.redacted <==> HasNote(trail, SecretsRedacted))
    && (forall k :: CountIn(s.counts, k) == CountOf(trail, k))
    && (forall k :: PathsIn(s.paths, k) == PathsOf(trail, k))
  }

  /** The values are those of the parts, and the summary says exactly what was changed, where, and what was redacted. */
  ghost predicate Reports(parts: seq<Part>, replaced: bool, n: Normalised) {
    && (forall key | key != SecretsRedacted :: ListsLosses(parts, n.summary, key))
    && |n.values| == |parts|
    && (forall i | 0 <= i < |parts| :: Bounded(parts[i].value, 0) == Ok(n.values[i]))
    && n.summary.redacted == replaced
    && ((forall i | 0 <= i < |parts| :: WellFormed(parts[i].value) && !HasOtherKeys(parts[i].value)) ==>
          (n.summary.lossy <==> exists i :: 0 <= i < |parts| && n.values[i] != parts[i].value))
  }

  lemma AuditReports(redactions: seq<Note>, parts: seq<Part>, replaced: bool, n: Normalised)
    requires forall i | 0 <= i < |redactions| :: redactions[i].key == SecretsRedacted
    requires redactions != [] <==> replaced
    requires |n.values| == |parts| && forall i | 0 <= i < |parts| :: Bounded(parts[i].value, 0) == Ok(n.values[i])
    requires Summarises(n.summary, redactions + PartNotes(parts))
    ensures Reports(parts, replaced, n)
  {
    hide Bounded, WellFormed, HasOtherKeys, Loss, HasNote, PartNotes, ListsLosses, CountOf, PathsOf;
    RedactedExactly(redactions, parts);
    forall key | key != SecretsRedacted ensures ListsLosses(parts, n.summary, key) {
      SummaryListsLosses(redactions, parts, n.summary, key);
    }
    if forall i | 0 <= i < |parts| :: WellFormed(parts[i].value) && !HasOtherKeys(parts[i].value) {
      LossyExactly(redactions, parts);
    }
  }

  /** The part of normalize_event that bounds an event and says what that lost. */
  method NormalizeEvent(redact: Value -> Redacted, p: Payload) returns (r: Result<Normalised, Error>)
    ensures match Misshapen(p)
            case Some(field) => r == Err(WrongShape(field))
            case None =>
              if r.Ok? then Reports(PartsOf(redact, p), redact(OrEmpty(p.observed, Dict([]))).replaced, r.value)
              else exists k :: FailsAt(PartsOf(redact, p), k, r.error)
  {
    hide Bounded, Notes, CountOf, PathsOf, Audit.Valid, PartNotes, Loss, HasNote, Reports, Misshapen, Answers,
      Summarises;
    if Misshapen(p).Some? {
      return Err(WrongShape(Misshapen(p).value));
    }
    var audit := new Audit();
    var redacted := redact(OrEmpty(p.observed, Dict([])));
    if redacted.replaced {
      audit.RecordAudit(SecretsRedacted, "observed.credential.password");
    }
    ghost var redactions := audit.trail;
    ghost var parts := PartsOf(redact, p);
    NoPartNotes(redactions);
    assert parts[..0] == [] && parts[..4] == parts;
    var observed := Normalise(redacted.observed, 0, "observed", audit);
    if observed.Err? {
      assert FailsAt(parts, 0, observed.error);
      return Err(observed.error);
    }
    NextPartNotes(redactions, parts, 0);
    var enrichment := Normalise(OrEmpty(p.enrichment, Dict([])), 0, "enrichment", audit);
    if enrichment.Err? {
      assert FailsAt(parts, 1, enrichment.error);
      return Err(enrichment.error);
    }
    NextPartNotes(redactions, parts, 1);
    var derived := Normalise(OrEmpty(p.derived, Dict([])), 0, "derived", audit);
    if derived.Err? {
      assert FailsAt(parts, 2, derived.error);
      return Err(derived.error);
    }
    NextPartNotes(redactions, parts, 2);
    var hypotheses := Normalise(OrEmpty(p.hypotheses, List([])), 0, "hypotheses", audit);
    if hypotheses.Err? {
      assert FailsAt(parts, 3, hypotheses.error);
      return Err(hypotheses.error);
    }
    NextPartNotes(redactions, parts, 3);
    var summary := audit.NormalizationSummary();
    var values := [observed.value, enrichment.value, derived.value, hypotheses.value];
    AuditReports(redactions, parts, redacted.replaced, Normalised(values, summary));
    return Ok(Normalised(values, summary));
  }

  /** The four parts of a normalised event, and the first field of the wrong type of one that is not. */
  lemma NormalisedParts(redact: Value -> Redacted, p: Payload, replaced: bool, n: Normalised)
    requires Misshapen(p).None? ==> Reports(PartsOf(redact, p), replaced, n)
    ensures if !p.observed.Null? && !p.observed.Dict? then Misshapen(p) == Some("observed")
            else if !p.enrichment.Null? && !p.enrichment.Dict? then Misshapen(p) == Some("enrichment")
            else if !p.derived.Null? && !p.derived.Dict? then Misshapen(p) == Some("derived")
            else if !p.hypotheses.Null? && !p.hypotheses.List? then Misshapen(p) == Some("hypotheses")
            else
              && PartsOf(redact, p) ==
                   [Part(redact(if p.observed.Null? then Dict([]) else p.observed).observed, "observed"),
                    Part(if p.enrichment.Null? then Dict([]) else p.enrichment, "enrichment"),
                    Part(if p.derived.Null? then Dict([]) else p.derived, "derived"),
                    Part(if p.hypotheses.Null? then List([]) else p.hypotheses, "hypotheses")]
              && |n.values| == 4 && n.summary.redacted == replaced
              && (forall i | 0 <= i < 4 :: LeftOf(PartsOf(redact, p)[i].value, n.values[i]))
  {
    hide Bounded, LeftOf, Acceptable, RefusedFor, WellFormed, HasOtherKeys;
    var parts := PartsOf(redact, p);
    forall i | 0 <= i < 4 ensures Answers(parts[i].value, 0, Bounded(parts[i].value, 0)) {
      BoundedExactly(parts[i].value, 0);
    }
  }

  lemma NoPartNotes(redactions: seq<Note>)
    ensures redactions + PartNotes([]) == redactions
  {
  }

  lemma NextPartNotes(redactions: seq<Note>, parts: seq<Part>, i: nat)
    requires i < |parts|
    ensures redactions + PartNotes(parts[..i + 1]) ==
            redactions + PartNotes(parts[..i]) + Notes(parts[i].value, 0, parts[i].path)
  {
    hide Notes;
    assert parts[..i + 1][..i] == parts[..i];
  }

  lemma {:induction false} PartNotesAreLosses(parts: seq<Part>)
    ensures AllLosses(PartNotes(parts))
  {
    hide Notes;
    if parts != [] {
      PartNotesAreLosses(parts[..|parts| - 1]);
      NotesAreLosses(parts[|parts| - 1].value, 0, parts[|parts| - 1].path);
    }
  }

  lemma RedactedExactly(redactions: seq<Note>, parts: seq<Part>)
    requires forall i | 0 <= i < |redactions| :: redactions[i].key == SecretsRedacted
    ensures HasNote(redactions + PartNotes(parts), SecretsRedacted) <==> redactions != []
  {
    PartNotesAreLosses(parts);
    var trail := redactions + PartNotes(parts);
    assert forall i | 0 <= i < |redactions| :: trail[i] == redactions[i];
    assert forall i | |redactions| <= i < |trail| :: trail[i] == PartNotes(parts)[i - |redactions|];
    if redactions != [] {
      assert trail[0].key == SecretsRedacted;
    }
  }
}
