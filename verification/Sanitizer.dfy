/**
  Recursive redaction of JSON trees, object keys and log payloads
  (src/common/utils/sensitive-data.util.ts:3-83).

  The recursion over values is a function; the loop that fills an object is a method proved
  against it. The lemmas relate both to an unlimited walk followed by the depth limit.
 */
module Sanitizer {
  import opened Common
  import opened Text
  import opened TokenScanner

  const MAX_DEPTH := 8

  /** A JSON tree. The keys of an object are distinct, as those of every JavaScript object are. */
  datatype Json =
    | Null
    | Bool(b: bool)
    | Number(n: real)
    | String(s: string)
    | Array(items: seq<Json>)
    | Object(entries: seq<Entry>)

  datatype Entry = Entry(key: string, value: Json)

  const MARKER := String(REDACTED)

  /** What an object below the depth limit is replaced by. */
  const CUT_KEY := "_redacted"
  const CUT_ENTRIES := [Entry(CUT_KEY, MARKER)]

  // ----- sensitive keys -----

  /** Two words with an optional underscore or dash in between. */
  predicate Joined(left: string, right: string, key: string) {
    key == left + right || key == left + "_" + right || key == left + "-" + right
  }

  /** The alternatives of the key pattern, in its order, for a key in lower case. */
  predicate MatchesKeyPattern(key: string) {
    || key == "authorization" || key == "cookie" || key == "set-cookie" || key == "password"
    || key == "passwd" || key == "pwd" || key == "secret" || key == "token"
    || Joined("access", "token", key) || Joined("refresh", "token", key)
    || Joined("id", "token", key) || Joined("api", "key", key) || key == "apikey"
    || key == "auth" || key == "bearer" || key == "jwt" || key == "session"
    || Joined("session", "id", key) || key == "csrf" || key == "x-api-key"
  }

  /** White space and dashes become underscores. */
  function Normalize(key: string): (r: string)
    ensures |r| == |key|
    ensures forall i | 0 <= i < |key| ::
      r[i] == if IsSpace(key[i]) || key[i] == '-' then '_' else key[i]
  {
    seq(|key|, i requires 0 <= i < |key| => if IsSpace(key[i]) || key[i] == '-' then '_' else key[i])
  }

  predicate IsSensitiveKey(key: string) {
    MatchesKeyPattern(Lower(Normalize(key)))
  }

  predicate JoinedByUnderscore(left: string, right: string, key: string) {
    key == left + right || key == left + "_" + right
  }

  /** The spellings that the key test really accepts. */
  predicate IsSensitiveSpelling(key: string) {
    || key == "authorization" || key == "cookie" || key == "password"
    || key == "passwd" || key == "pwd" || key == "secret" || key == "token"
    || JoinedByUnderscore("access", "token", key) || JoinedByUnderscore("refresh", "token", key)
    || JoinedByUnderscore("id", "token", key) || JoinedByUnderscore("api", "key", key)
    || key == "auth" || key == "bearer" || key == "jwt" || key == "session"
    || JoinedByUnderscore("session", "id", key) || key == "csrf"
  }

  lemma NoDashAfterNormalizing(key: string)
    ensures '-' !in Lower(Normalize(key))
  {
  }

  lemma JoinedWithoutDash(left: string, right: string, key: string)
    requires '-' !in key
    ensures Joined(left, right, key) == JoinedByUnderscore(left, right, key)
  {
    assert (left + "-" + right)[|left|] == '-';
  }

  /**
    The key test accepts exactly these spellings, up to letter case and with a dash or a blank for an
    underscore. The two alternatives spelled with a literal dash can never match, because the
    dashes of the key are gone before the pattern sees them.
   */
  lemma SensitiveKeySpellings(key: string)
    ensures IsSensitiveKey(key) <==> IsSensitiveSpelling(Lower(Normalize(key)))
  {
    var k := Lower(Normalize(key));
    NoDashAfterNormalizing(key);
    JoinedWithoutDash("access", "token", k);
    JoinedWithoutDash("refresh", "token", k);
    JoinedWithoutDash("id", "token", k);
    JoinedWithoutDash("api", "key", k);
    JoinedWithoutDash("session", "id", k);
    assert "set-cookie"[3] == '-' && "x-api-key"[1] == '-';
    assert "apikey" == "api" + "key";
  }

  /** Letter case does not matter, nor which of dash, blank and underscore separates the words. */
  lemma KeySpellingVariants(key: string)
    ensures IsSensitiveKey(Lower(key)) == IsSensitiveKey(key)
    ensures IsSensitiveKey(Normalize(key)) == IsSensitiveKey(key)
  {
    assert Lower(Normalize(Lower(key))) == Lower(Normalize(key));
    assert Normalize(Normalize(key)) == Normalize(key);
  }

  /** Characters that normalizing leaves alone. */
  predicate Plain(s: string) {
    forall i | 0 <= i < |s| :: s[i] != '-' && !IsSpace(s[i])
  }

  lemma PlainStays(s: string)
    requires Plain(s)
    ensures Normalize(s) == s
  {
  }

  lemma DashBecomesUnderscore(left: string, right: string)
    requires Plain(left) && Plain(right)
    ensures Normalize(left + "-" + right) == left + "_" + right
  {
    var key := left + "-" + right;
    forall i | 0 <= i < |key| ensures Normalize(key)[i] == (left + "_" + right)[i] {
      if i < |left| { assert key[i] == left[i]; }
      if i > |left| { assert key[i] == right[i - |left| - 1]; }
    }
  }

  /** A key in lower case that joins two plain words is kept, or has its dash turned into an underscore. */
  lemma JoinedIsKept(left: string, right: string, key: string)
    requires Plain(left) && Plain(right) && Joined(left, right, key)
    ensures JoinedByUnderscore(left, right, Normalize(key))
  {
    assert Plain(left + right) && Plain(left + "_" + right);
    PlainStays(left + right);
    PlainStays(left + "_" + right);
    DashBecomesUnderscore(left, right);
  }

  /** The alternatives of the pattern that are single words. */
  predicate IsSingleWord(key: string) {
    || key == "authorization" || key == "cookie" || key == "password" || key == "passwd" || key == "pwd"
    || key == "secret" || key == "token" || key == "apikey" || key == "auth" || key == "bearer" || key == "jwt"
    || key == "session" || key == "csrf"
  }

  lemma SingleWordIsPlain(key: string)
    requires IsSingleWord(key)
    ensures Normalize(key) == key
  {
    assert Plain(key);
    PlainStays(key);
  }

  predicate IsDashedHeader(key: string) {
    key == "set-cookie" || key == "x-api-key"
  }

  predicate IsJoinedWords(key: string) {
    || Joined("access", "token", key) || Joined("refresh", "token", key) || Joined("id", "token", key)
    || Joined("api", "key", key) || Joined("session", "id", key)
  }

  lemma JoinedWordsAreKept(key: string)
    requires IsJoinedWords(key)
    ensures IsSensitiveSpelling(Normalize(key))
  {
    if Joined("access", "token", key) {
      JoinedIsKept("access", "token", key);
    } else if Joined("refresh", "token", key) {
      JoinedIsKept("refresh", "token", key);
    } else if Joined("id", "token", key) {
      JoinedIsKept("id", "token", key);
    } else if Joined("api", "key", key) {
      JoinedIsKept("api", "key", key);
    } else {
      JoinedIsKept("session", "id", key);
    }
  }

  lemma WrittenKeyIsSpelling(key: string)
    requires MatchesKeyPattern(key) && !IsDashedHeader(key)
    ensures IsSensitiveSpelling(Normalize(key))
  {
    if IsSingleWord(key) {
      SingleWordIsPlain(key);
      assert "apikey" == "api" + "key";
    } else {
      JoinedWordsAreKept(key);
    }
  }

  lemma NoSpellingLikeHeader(k: string)
    requires (|k| == 10 && k[2] == 't' && k[3] == '_') || (|k| == 9 && k[0] == 'x')
    ensures !IsSensitiveSpelling(k)
  {
  }

  lemma DashedHeaderIsNoSpelling(key: string)
    requires IsDashedHeader(key)
    ensures MatchesKeyPattern(key) && !IsSensitiveSpelling(Normalize(key))
  {
    var k := Normalize(key);
    if key == "set-cookie" {
      assert key[2] == 't' && key[3] == '-';
      assert |k| == 10 && k[2] == 't' && k[3] == '_';
    } else {
      assert key[0] == 'x';
      assert |k| == 9 && k[0] == 'x';
    }
    NoSpellingLikeHeader(k);
  }

  lemma LowerCommutes(key: string)
    ensures Lower(Normalize(key)) == Normalize(Lower(key))
  {
    var a, b := Lower(Normalize(key)), Normalize(Lower(key));
    forall i | 0 <= i < |key| ensures a[i] == b[i] {
      assert IsSpace(LowerChar(key[i])) == IsSpace(key[i]);
    }
  }

  /**
    Of the keys that the pattern names, up to letter case, the test misses exactly two: those the
    pattern spells with a dash that is not optional.
   */
  lemma MissedKeysAre(key: string)
    ensures MatchesKeyPattern(Lower(key)) && !IsSensitiveKey(key) <==> IsDashedHeader(Lower(key))
  {
    SensitiveKeySpellings(key);
    LowerCommutes(key);
    if IsDashedHeader(Lower(key)) {
      DashedHeaderIsNoSpelling(Lower(key));
    } else if MatchesKeyPattern(Lower(key)) {
      WrittenKeyIsSpelling(Lower(key));
    }
  }

  // ----- the walk -----

  /** The property assignment drops this key: it sets the prototype of the result instead. */
  const PROTO := "__proto__"

  function SanitizeValue(v: Json, depth: nat): Json
    decreases v, 1
  {
    if depth > MAX_DEPTH then MARKER else
    match v
    case String(s) => String(SanitizeString(s))
    case Array(items) => Array(SanitizedItems(items, depth + 1))
    case Object(entries) => Object(SanitizedObject(entries, depth + 1))
    case _ => v
  }

  function SanitizedItems(items: seq<Json>, depth: nat): (r: seq<Json>)
    ensures |r| == |items|
    decreases items, 0
  {
    if items == [] then [] else [SanitizeValue(items[0], depth)] + SanitizedItems(items[1..], depth)
  }

  function SanitizedObject(entries: seq<Entry>, depth: nat): seq<Entry>
    decreases entries, 1
  {
    if depth > MAX_DEPTH then CUT_ENTRIES else SanitizedEntries(entries, depth)
  }

  function SanitizedEntries(entries: seq<Entry>, depth: nat): seq<Entry>
    decreases entries, 0
  {
    if entries == [] then [] else
    SanitizedEntry(entries[0], depth) + SanitizedEntries(entries[1..], depth)
  }

  function SanitizedEntry(e: Entry, depth: nat): seq<Entry>
    decreases e, 3
  {
    if e.key == PROTO then [] else [Entry(e.key, Replaced(e, depth))]
  }

  function Replaced(e: Entry, depth: nat): Json
    decreases e, 2
  {
    if IsSensitiveKey(e.key) then MARKER else SanitizeValue(e.value, depth)
  }

  /** Assignment of a property to an object that does not have it yet. */
  function Assign(result: seq<Entry>, key: string, value: Json): seq<Entry> {
    if key == PROTO then result else result + [Entry(key, value)]
  }

  lemma EntriesStep(result: seq<Entry>, entries: seq<Entry>, i: nat, depth: nat, v: Json)
    requires i < |entries| && v == Replaced(entries[i], depth)
    ensures result + SanitizedEntries(entries[i..], depth) ==
      Assign(result, entries[i].key, v) + SanitizedEntries(entries[i + 1..], depth)
  {
    var rest := entries[i..];
    assert rest[1..] == entries[i + 1..];
    assert SanitizedEntries(rest, depth) == SanitizedEntry(rest[0], depth) + SanitizedEntries(rest[1..], depth);
    var e := SanitizedEntry(entries[i], depth);
    assert Assign(result, entries[i].key, v) == result + e;
  }

  /** The loop that fills the result, entry by entry; an absent object stays absent. */
  method SanitizeObject(input: Option<seq<Entry>>, depth: nat) returns (r: Option<seq<Entry>>)
    ensures r == if input.None? then None else Some(SanitizedObject(input.value, depth))
  {
    if input.None? { return None; }
    if depth > MAX_DEPTH { return Some(CUT_ENTRIES); }
    var entries := input.value;
    var result: seq<Entry> := [];
    var i := 0;
    while i < |entries|
      invariant 0 <= i <= |entries|
      invariant result + SanitizedEntries(entries[i..], depth) == SanitizedEntries(entries, depth)
    {
      var e := entries[i];
      i := i + 1;
      if IsSensitiveKey(e.key) {
        EntriesStep(result, entries, i - 1, depth, MARKER);
        result := Assign(result, e.key, MARKER);
        continue;
      }
      var clean := SanitizeValue(e.value, depth);
      EntriesStep(result, entries, i - 1, depth, clean);
      result := Assign(result, e.key, clean);
    }
    assert entries[i..] == [] && result == SanitizedEntries(entries, depth);
    r := Some(result);
  }

  /** Redaction without a depth limit. */
  function UnlimitedValue(v: Json): Json
    decreases v, 1
  {
    match v
    case String(s) => String(SanitizeString(s))
    case Array(items) => Array(UnlimitedItems(items))
    case Object(entries) => Object(UnlimitedEntries(entries))
    case _ => v
  }

  function UnlimitedItems(items: seq<Json>): seq<Json>
    decreases items, 0
  {
    if items == [] then [] else [UnlimitedValue(items[0])] + UnlimitedItems(items[1..])
  }

  function UnlimitedEntries(entries: seq<Entry>): seq<Entry>
    decreases entries, 0
  {
    if entries == [] then [] else UnlimitedEntry(entries[0]) + UnlimitedEntries(entries[1..])
  }

  function UnlimitedEntry(e: Entry): seq<Entry>
    decreases e, 2
  {
    if e.key == PROTO then []
    else [Entry(e.key, if IsSensitiveKey(e.key) then MARKER else UnlimitedValue(e.value))]
  }

  /** The depth limit on its own: whatever lies below it is replaced, nothing else is touched. */
  function Cut(v: Json, depth: nat): Json
    decreases v, 1
  {
    if depth > MAX_DEPTH then MARKER else
    match v
    case Array(items) => Array(CutItems(items, depth + 1))
    case Object(entries) => Object(CutObject(entries, depth + 1))
    case _ => v
  }

  function CutItems(items: seq<Json>, depth: nat): seq<Json>
    decreases items, 0
  {
    if items == [] then [] else [Cut(items[0], depth)] + CutItems(items[1..], depth)
  }

  function CutObject(entries: seq<Entry>, depth: nat): seq<Entry>
    decreases entries, 1
  {
    if depth > MAX_DEPTH then CUT_ENTRIES else CutEntries(entries, depth)
  }

  function CutEntries(entries: seq<Entry>, depth: nat): seq<Entry>
    decreases entries, 0
  {
    if entries == [] then []
    else [Entry(entries[0].key, Cut(entries[0].value, depth))] + CutEntries(entries[1..], depth)
  }

  // ----- the limited walk factors through the unlimited one -----

  /** On every tree the sanitizer is unlimited redaction followed by the depth limit. */
  lemma {:induction false} SanitizedIsCutUnlimited(v: Json, depth: nat)
    ensures SanitizeValue(v, depth) == Cut(UnlimitedValue(v), depth)
    decreases v, 1
  {
    match v
    case Array(items) => SanitizedItemsAreCut(items, depth + 1);
    case Object(entries) =>
      if depth + 1 <= MAX_DEPTH { SanitizedEntriesAreCut(entries, depth + 1); }
    case _ =>
  }

  lemma {:induction false} SanitizedItemsAreCut(items: seq<Json>, depth: nat)
    ensures SanitizedItems(items, depth) == CutItems(UnlimitedItems(items), depth)
    decreases items, 0
  {
    if items != [] {
      SanitizedIsCutUnlimited(items[0], depth);
      SanitizedItemsAreCut(items[1..], depth);
      var u := UnlimitedItems(items);
      assert u[0] == UnlimitedValue(items[0]) && u[1..] == UnlimitedItems(items[1..]);
    }
  }

  lemma {:induction false} SanitizedEntriesAreCut(entries: seq<Entry>, depth: nat)
    requires depth <= MAX_DEPTH
    ensures SanitizedEntries(entries, depth) == CutEntries(UnlimitedEntries(entries), depth)
    decreases entries, 0
  {
    if entries != [] {
      SanitizedIsCutUnlimited(entries[0].value, depth);
      SanitizedEntriesAreCut(entries[1..], depth);
      CutEntriesAppend(UnlimitedEntry(entries[0]), UnlimitedEntries(entries[1..]), depth);
      assert CutEntries(UnlimitedEntry(entries[0]), depth) == SanitizedEntry(entries[0], depth);
    }
  }

  lemma {:induction false} CutEntriesAppend(a: seq<Entry>, b: seq<Entry>, depth: nat)
    ensures CutEntries(a + b, depth) == CutEntries(a, depth) + CutEntries(b, depth)
    decreases |a|
  {
    if a == [] {
      assert a + b == b;
    } else {
      assert (a + b)[1..] == a[1..] + b;
      CutEntriesAppend(a[1..], b, depth);
    }
  }

  // ----- which trees the sanitizer leaves alone -----

  /** Every string is token-free, sensitive keys hold the marker, and no key sets a prototype. */
  ghost predicate Safe(v: Json)
    decreases v, 1
  {
    match v
    case String(s) => TokenFree(s)
    case Array(items) => SafeItems(items)
    case Object(entries) => SafeEntries(entries)
    case _ => true
  }

  ghost predicate SafeItems(items: seq<Json>)
    decreases items, 0
  {
    items == [] || (Safe(items[0]) && SafeItems(items[1..]))
  }

  ghost predicate SafeEntries(entries: seq<Entry>)
    decreases entries, 0
  {
    entries == [] || (SafeEntry(entries[0]) && SafeEntries(entries[1..]))
  }

  ghost predicate SafeEntry(e: Entry)
    decreases e, 2
  {
    && e.key != PROTO && Safe(e.value)
    && (IsSensitiveKey(e.key) ==> e.value == MARKER)
  }

  /** Below the depth limit there are only markers. */
  predicate Fits(v: Json, depth: nat)
    decreases v, 1
  {
    if depth > MAX_DEPTH then v == MARKER else
    match v
    case Array(items) => FitsItems(items, depth + 1)
    case Object(entries) => FitsObject(entries, depth + 1)
    case _ => true
  }

  predicate FitsItems(items: seq<Json>, depth: nat)
    decreases items, 0
  {
    items == [] || (Fits(items[0], depth) && FitsItems(items[1..], depth))
  }

  predicate FitsObject(entries: seq<Entry>, depth: nat)
    decreases entries, 1
  {
    if depth > MAX_DEPTH then entries == CUT_ENTRIES else FitsEntries(entries, depth)
  }

  predicate FitsEntries(entries: seq<Entry>, depth: nat)
    decreases entries, 0
  {
    entries == [] || (Fits(entries[0].value, depth) && FitsEntries(entries[1..], depth))
  }

  /** The depth limit changes a tree exactly when something below it is not a marker. */
  lemma {:induction false} CutUnchangedIffFits(v: Json, depth: nat)
    ensures Cut(v, depth) == v <==> Fits(v, depth)
    decreases v, 1
  {
    match v
    case Array(items) => CutItemsUnchanged(items, depth + 1);
    case Object(entries) => CutEntriesUnchanged(entries, depth + 1);
    case _ =>
  }

  lemma {:induction false} CutItemsUnchanged(items: seq<Json>, depth: nat)
    ensures CutItems(items, depth) == items <==> FitsItems(items, depth)
    decreases items, 0
  {
    if items != [] {
      CutUnchangedIffFits(items[0], depth);
      CutItemsUnchanged(items[1..], depth);
      var c := CutItems(items, depth);
      assert items == [items[0]] + items[1..];
      assert c[0] == Cut(items[0], depth) && c[1..] == CutItems(items[1..], depth);
    }
  }

  lemma {:induction false} CutEntriesUnchanged(entries: seq<Entry>, depth: nat)
    ensures CutEntries(entries, depth) == entries <==> FitsEntries(entries, depth)
    decreases entries, 0
  {
    if entries != [] {
      CutUnchangedIffFits(entries[0].value, depth);
      CutEntriesUnchanged(entries[1..], depth);
      var c := CutEntries(entries, depth);
      assert entries == [entries[0]] + entries[1..];
      assert c[0].value == Cut(entries[0].value, depth) && c[1..] == CutEntries(entries[1..], depth);
    }
  }

  /** Unlimited redaction changes a tree exactly when it is not safe. */
  lemma {:induction false} UnlimitedUnchangedIffSafe(v: Json)
    ensures UnlimitedValue(v) == v <==> Safe(v)
    decreases v, 1
  {
    match v
    case String(s) => UnchangedIffTokenFree(s);
    case Array(items) => UnlimitedItemsUnchanged(items);
    case Object(entries) => UnlimitedEntriesUnchanged(entries);
    case _ =>
  }

  lemma {:induction false} UnlimitedItemsUnchanged(items: seq<Json>)
    ensures UnlimitedItems(items) == items <==> SafeItems(items)
    decreases items, 0
  {
    if items != [] {
      UnlimitedUnchangedIffSafe(items[0]);
      UnlimitedItemsUnchanged(items[1..]);
      var c := UnlimitedItems(items);
      assert items == [items[0]] + items[1..];
      assert c[0] == UnlimitedValue(items[0]) && c[1..] == UnlimitedItems(items[1..]);
    }
  }

  lemma {:induction false} UnlimitedEntriesUnchanged(entries: seq<Entry>)
    ensures |UnlimitedEntries(entries)| <= |entries|
    ensures UnlimitedEntries(entries) == entries <==> SafeEntries(entries)
    decreases entries, 0
  {
    if entries != [] {
      UnlimitedEntriesUnchanged(entries[1..]);
      UnlimitedEntryUnchanged(entries[0]);
      var e, rest := UnlimitedEntry(entries[0]), UnlimitedEntries(entries[1..]);
      assert entries == [entries[0]] + entries[1..];
      if |e| == 1 {
        assert (e + rest)[0] == e[0] && (e + rest)[1..] == rest;
      }
    }
  }

  lemma {:induction false} UnlimitedEntryUnchanged(e: Entry)
    ensures UnlimitedEntry(e) == [e] <==> SafeEntry(e)
    decreases e, 2
  {
    MarkerIsTokenFree();
    UnlimitedUnchangedIffSafe(e.value);
    assert e == Entry(e.key, e.value);
  }

  // ----- every output is safe and fits -----

  lemma {:induction false} UnlimitedIsSafe(v: Json)
    ensures Safe(UnlimitedValue(v))
    decreases v, 1
  {
    match v
    case String(s) => SanitizedIsTokenFree(s);
    case Array(items) => UnlimitedItemsAreSafe(items);
    case Object(entries) => UnlimitedEntriesAreSafe(entries);
    case _ =>
  }

  lemma {:induction false} UnlimitedItemsAreSafe(items: seq<Json>)
    ensures SafeItems(UnlimitedItems(items))
    decreases items, 0
  {
    if items != [] {
      UnlimitedIsSafe(items[0]);
      UnlimitedItemsAreSafe(items[1..]);
      assert UnlimitedItems(items)[1..] == UnlimitedItems(items[1..]);
    }
  }

  lemma UnlimitedEntryIsSafe(e: Entry)
    requires Safe(UnlimitedValue(e.value))
    ensures UnlimitedEntry(e) == [] || (|UnlimitedEntry(e)| == 1 && SafeEntry(UnlimitedEntry(e)[0]))
  {
    MarkerIsTokenFree();
  }

  lemma {:induction false} UnlimitedEntriesAreSafe(entries: seq<Entry>)
    ensures SafeEntries(UnlimitedEntries(entries))
    decreases entries, 0
  {
    if entries != [] {
      UnlimitedIsSafe(entries[0].value);
      UnlimitedEntriesAreSafe(entries[1..]);
      UnlimitedEntryIsSafe(entries[0]);
      var e, rest := UnlimitedEntry(entries[0]), UnlimitedEntries(entries[1..]);
      if e == [] { assert e + rest == rest; } else { assert (e + rest)[1..] == rest; }
    }
  }

  lemma MarkerEntryIsSafe(entries: seq<Entry>)
    requires |entries| == 1 && entries[0].key != PROTO && entries[0].value == MARKER
    ensures SafeEntries(entries)
  {
    MarkerIsTokenFree();
    assert SafeEntry(entries[0]);
    assert entries[1..] == [];
  }

  lemma CutKeyIsNotProto()
    ensures CUT_KEY != PROTO
  {
    assert CUT_KEY[1] == 'r' && PROTO[1] == '_';
  }

  lemma CutEntriesAreSafe()
    ensures SafeEntries(CUT_ENTRIES) && Safe(MARKER)
  {
    MarkerIsTokenFree();
    CutKeyIsNotProto();
    MarkerEntryIsSafe(CUT_ENTRIES);
  }

  lemma {:induction false} CutKeepsSafe(v: Json, depth: nat)
    requires Safe(v)
    ensures Safe(Cut(v, depth))
    decreases v, 1
  {
    CutEntriesAreSafe();
    match v
    case Array(items) => CutItemsKeepSafe(items, depth + 1);
    case Object(entries) => CutObjectKeepsSafe(entries, depth + 1);
    case _ =>
  }

  lemma {:induction false} CutItemsKeepSafe(items: seq<Json>, depth: nat)
    requires SafeItems(items)
    ensures SafeItems(CutItems(items, depth))
    decreases items, 0
  {
    if items != [] {
      CutKeepsSafe(items[0], depth);
      CutItemsKeepSafe(items[1..], depth);
      assert CutItems(items, depth)[1..] == CutItems(items[1..], depth);
    }
  }

  lemma {:induction false} CutObjectKeepsSafe(entries: seq<Entry>, depth: nat)
    requires SafeEntries(entries)
    ensures SafeEntries(CutObject(entries, depth))
    decreases entries, 0
  {
    CutEntriesAreSafe();
    if entries != [] && depth <= MAX_DEPTH {
      CutKeepsSafe(entries[0].value, depth);
      CutObjectKeepsSafe(entries[1..], depth);
      assert CutEntries(entries, depth)[1..] == CutEntries(entries[1..], depth);
    }
  }

  lemma {:induction false} CutFits(v: Json, depth: nat)
    ensures Fits(Cut(v, depth), depth)
    decreases v, 1
  {
    match v
    case Array(items) => CutItemsFit(items, depth + 1);
    case Object(entries) => CutObjectFits(entries, depth + 1);
    case _ =>
  }

  lemma {:induction false} CutItemsFit(items: seq<Json>, depth: nat)
    ensures FitsItems(CutItems(items, depth), depth)
    decreases items, 0
  {
    if items != [] {
      CutFits(items[0], depth);
      CutItemsFit(items[1..], depth);
      assert CutItems(items, depth)[1..] == CutItems(items[1..], depth);
    }
  }

  lemma {:induction false} CutObjectFits(entries: seq<Entry>, depth: nat)
    ensures FitsObject(CutObject(entries, depth), depth)
    decreases entries, 0
  {
    if entries != [] && depth <= MAX_DEPTH {
      CutFits(entries[0].value, depth);
      CutObjectFits(entries[1..], depth);
      assert CutEntries(entries, depth)[1..] == CutEntries(entries[1..], depth);
    }
  }

  /**
    The trees that sanitizing leaves alone are exactly those that are safe and fit under the
    limit, and every output is one of them.
   */
  lemma SanitizedFixedPoints(v: Json, depth: nat)
    ensures Safe(SanitizeValue(v, depth)) && Fits(SanitizeValue(v, depth), depth)
    ensures SanitizeValue(v, depth) == v <==> Safe(v) && Fits(v, depth)
  {
    SanitizedIsCutUnlimited(v, depth);
    UnlimitedIsSafe(v);
    CutKeepsSafe(UnlimitedValue(v), depth);
    CutFits(UnlimitedValue(v), depth);
    if Safe(v) && Fits(v, depth) {
      UnlimitedUnchangedIffSafe(v);
      CutUnchangedIffFits(v, depth);
    }
  }

  /** Sanitizing twice is sanitizing once, at every starting depth, on trees of every height. */
  lemma SanitizeValueIdempotent(v: Json, depth: nat)
    ensures SanitizeValue(SanitizeValue(v, depth), depth) == SanitizeValue(v, depth)
  {
    SanitizedFixedPoints(v, depth);
    SanitizedFixedPoints(SanitizeValue(v, depth), depth);
  }

  /** The same for the entry point that takes an object. */
  lemma SanitizedObjectIdempotent(entries: seq<Entry>, depth: nat)
    ensures SafeEntries(SanitizedObject(entries, depth))
    ensures SanitizedObject(SanitizedObject(entries, depth), depth) == SanitizedObject(entries, depth)
  {
    if depth <= MAX_DEPTH {
      var u := UnlimitedEntries(entries);
      SanitizedEntriesAreCut(entries, depth);
      UnlimitedEntriesAreSafe(entries);
      CutObjectKeepsSafe(u, depth);
      CutObjectFits(u, depth);
      var out := SanitizedEntries(entries, depth);
      SanitizedEntriesAreCut(out, depth);
      UnlimitedEntriesUnchanged(out);
      CutEntriesUnchanged(out, depth);
    } else {
      CutEntriesAreSafe();
    }
  }

  // ----- the limit and the nesting of the output -----

  lemma {:induction false} FitsUnlimited(v: Json, depth: nat)
    requires Fits(v, depth)
    ensures Fits(UnlimitedValue(v), depth)
    decreases v, 1
  {
    if depth > MAX_DEPTH { MarkerIsTokenFree(); } else {
      match v
      case Array(items) => FitsUnlimitedItems(items, depth + 1);
      case Object(entries) => FitsUnlimitedObject(entries, depth + 1);
      case _ =>
    }
  }

  lemma {:induction false} FitsUnlimitedItems(items: seq<Json>, depth: nat)
    requires FitsItems(items, depth)
    ensures FitsItems(UnlimitedItems(items), depth)
    decreases items, 0
  {
    if items != [] {
      FitsUnlimited(items[0], depth);
      FitsUnlimitedItems(items[1..], depth);
      assert UnlimitedItems(items)[1..] == UnlimitedItems(items[1..]);
    }
  }

  lemma {:induction false} FitsUnlimitedObject(entries: seq<Entry>, depth: nat)
    requires FitsObject(entries, depth)
    ensures FitsObject(UnlimitedEntries(entries), depth)
    decreases entries, 0
  {
    if depth > MAX_DEPTH {
      CutEntriesAreSafe();
      UnlimitedEntriesUnchanged(entries);
    } else if entries != [] {
      FitsUnlimited(entries[0].value, depth);
      FitsUnlimitedObject(entries[1..], depth);
      var e, rest := UnlimitedEntry(entries[0]), UnlimitedEntries(entries[1..]);
      if e == [] { assert e + rest == rest; } else { assert (e + rest)[1..] == rest; }
    }
  }

  /**
    The limited sanitizer equals the unlimited one exactly when what the latter produces fits under
    the limit; in particular on every tree that fits itself.
   */
  lemma LimitedEqualsUnlimited(v: Json, depth: nat)
    ensures SanitizeValue(v, depth) == UnlimitedValue(v) <==> Fits(UnlimitedValue(v), depth)
    ensures Fits(v, depth) ==> SanitizeValue(v, depth) == UnlimitedValue(v)
  {
    SanitizedIsCutUnlimited(v, depth);
    CutUnchangedIffFits(UnlimitedValue(v), depth);
    if Fits(v, depth) { FitsUnlimited(v, depth); }
  }

  function Max(a: nat, b: nat): nat {
    if a < b then b else a
  }

  /** How many arrays and objects lie around the innermost value. */
  function Nesting(v: Json): nat
    decreases v, 1
  {
    match v
    case Array(items) => 1 + NestingOfItems(items)
    case Object(entries) => 1 + NestingOfEntries(entries)
    case _ => 0
  }

  function NestingOfItems(items: seq<Json>): nat
    decreases items, 0
  {
    if items == [] then 0 else Max(Nesting(items[0]), NestingOfItems(items[1..]))
  }

  function NestingOfEntries(entries: seq<Entry>): nat
    decreases entries, 0
  {
    if entries == [] then 0 else Max(Nesting(entries[0].value), NestingOfEntries(entries[1..]))
  }

  lemma {:induction false} FitsBoundsNesting(v: Json, depth: nat)
    requires Fits(v, depth)
    ensures Nesting(v) <= if depth > MAX_DEPTH then 0 else MAX_DEPTH + 1 - depth
    decreases v, 1
  {
    if depth <= MAX_DEPTH {
      match v
      case Array(items) => FitsBoundsItems(items, depth + 1);
      case Object(entries) => FitsBoundsEntries(entries, depth + 1);
      case _ =>
    }
  }

  lemma {:induction false} FitsBoundsItems(items: seq<Json>, depth: nat)
    requires FitsItems(items, depth)
    ensures NestingOfItems(items) <= if depth > MAX_DEPTH then 0 else MAX_DEPTH + 1 - depth
    decreases items, 0
  {
    if items != [] {
      FitsBoundsNesting(items[0], depth);
      FitsBoundsItems(items[1..], depth);
    }
  }

  lemma {:induction false} FitsBoundsEntries(entries: seq<Entry>, depth: nat)
    requires FitsObject(entries, depth)
    ensures NestingOfEntries(entries) <= if depth > MAX_DEPTH then 0 else MAX_DEPTH + 1 - depth
    decreases entries, 0
  {
    if entries != [] {
      if depth > MAX_DEPTH {
        assert entries[1..] == [];
      } else {
        FitsBoundsNesting(entries[0].value, depth);
        FitsBoundsEntries(entries[1..], depth);
      }
    }
  }

  /** However deep the input, the output nests at most nine deep below a value at depth 0. */
  lemma SanitizedNestingBounded(v: Json, depth: nat)
    ensures Nesting(SanitizeValue(v, depth)) <= if depth > 8 then 0 else 9 - depth
  {
    SanitizedFixedPoints(v, depth);
    FitsBoundsNesting(SanitizeValue(v, depth), depth);
  }

  // ----- what is kept -----

  function Keys(entries: seq<Entry>): seq<string> {
    if entries == [] then [] else [entries[0].key] + Keys(entries[1..])
  }

  function WithoutProto(keys: seq<string>): seq<string> {
    if keys == [] then []
    else (if keys[0] == PROTO then [] else [keys[0]]) + WithoutProto(keys[1..])
  }

  /** Above the limit an object keeps its keys and their order, the prototype key aside. */
  lemma {:induction false} SanitizedKeepsKeys(entries: seq<Entry>, depth: nat)
    requires depth <= MAX_DEPTH
    ensures Keys(SanitizedObject(entries, depth)) == WithoutProto(Keys(entries))
    decreases entries
  {
    if entries != [] {
      SanitizedKeepsKeys(entries[1..], depth);
      var e, rest := SanitizedEntry(entries[0], depth), SanitizedEntries(entries[1..], depth);
      assert Keys(entries)[1..] == Keys(entries[1..]);
      if e == [] { assert e + rest == rest; } else { assert (e + rest)[1..] == rest; }
    }
  }

  /** Some entry with this key is mapped to this value. */
  predicate Arises(entries: seq<Entry>, depth: nat, key: string, v: Json) {
    key != PROTO && exists e | e in entries ::
      e.key == key && v == if IsSensitiveKey(key) then MARKER else SanitizeValue(e.value, depth)
  }

  /** Above the limit its entries are the marker under each sensitive key and the sanitized value under any other. */
  lemma {:induction false} SanitizedEntryValues(entries: seq<Entry>, depth: nat, key: string, v: Json)
    requires depth <= MAX_DEPTH
    ensures Entry(key, v) in SanitizedObject(entries, depth) <==> Arises(entries, depth, key, v)
    decreases entries
  {
    if entries != [] {
      var first := entries[0];
      SanitizedEntryValues(entries[1..], depth, key, v);
      assert entries == [first] + entries[1..];
      assert SanitizedObject(entries, depth) == SanitizedEntry(first, depth) + SanitizedObject(entries[1..], depth);
      SanitizedEntryValue(first, depth, key, v);
      assert Arises(entries, depth, key, v) <==>
        Arises([first], depth, key, v) || Arises(entries[1..], depth, key, v);
    }
  }

  lemma SanitizedEntryValue(e: Entry, depth: nat, key: string, v: Json)
    ensures Entry(key, v) in SanitizedEntry(e, depth) <==> Arises([e], depth, key, v)
  {
    if Arises([e], depth, key, v) {
      assert SanitizedEntry(e, depth)[0] == Entry(key, v);
    }
    if e.key == key && v == Replaced(e, depth) {
      assert e in [e];
    }
  }

  /** An array keeps its length, and each element is sanitized one level down. */
  lemma {:induction false} SanitizedItemAt(items: seq<Json>, depth: nat, i: nat)
    requires i < |items|
    ensures |SanitizedItems(items, depth)| == |items|
    ensures SanitizedItems(items, depth)[i] == SanitizeValue(items[i], depth)
    decreases items
  {
    if i > 0 {
      SanitizedItemAt(items[1..], depth, i - 1);
    }
  }

  // ----- values deep inside -----

  /** One way down: to an element of an array, or to the value under a key. */
  datatype Branch = Item(i: nat) | Under(key: string)

  /** The value under the first entry with this key. */
  function ValueUnder(entries: seq<Entry>, key: string): Option<Json> {
    if entries == [] then None
    else if entries[0].key == key then Some(entries[0].value)
    else ValueUnder(entries[1..], key)
  }

  function Child(v: Json, b: Branch): Option<Json> {
    match (v, b)
    case (Array(items), Item(i)) => if i < |items| then Some(items[i]) else None
    case (Object(entries), Under(key)) => ValueUnder(entries, key)
    case _ => None
  }

  function Reach(v: Json, path: seq<Branch>): Option<Json>
    decreases |path|
  {
    if path == [] then Some(v) else
    match Child(v, path[0])
    case None => None
    case Some(c) => Reach(c, path[1..])
  }

  predicate PublicBranch(b: Branch) {
    b.Under? ==> !IsSensitiveKey(b.key) && b.key != PROTO
  }

  /** No key on the way is sensitive. */
  predicate Public(path: seq<Branch>) {
    forall b | b in path :: PublicBranch(b)
  }

  /** What becomes of one value, its children aside. */
  predicate Kept(before: Json, after: Json) {
    match before
    case String(s) => after == String(SanitizeString(s))
    case Array(items) => after.Array? && |after.items| == |items|
    case Object(_) => after.Object?
    case _ => after == before
  }

  lemma ValueUnderFirst(first: seq<Entry>, rest: seq<Entry>, key: string)
    requires |first| <= 1
    ensures ValueUnder(first + rest, key) ==
      if first != [] && first[0].key == key then Some(first[0].value) else ValueUnder(rest, key)
  {
    if first == [] { assert first + rest == rest; } else { assert (first + rest)[1..] == rest; }
  }

  lemma KeptUnder(e: Entry, depth: nat)
    ensures SanitizedEntry(e, depth) == if e.key == PROTO then [] else [Entry(e.key, Replaced(e, depth))]
  {
  }

  lemma {:induction false} ValueUnderKept(entries: seq<Entry>, depth: nat, key: string)
    requires key != PROTO
    ensures ValueUnder(SanitizedEntries(entries, depth), key) ==
      match ValueUnder(entries, key) case None => None case Some(v) => Some(Replaced(Entry(key, v), depth))
    decreases |entries|
  {
    if entries != [] {
      ValueUnderKept(entries[1..], depth, key);
      ValueUnderFirst(SanitizedEntry(entries[0], depth), SanitizedEntries(entries[1..], depth), key);
      KeptUnder(entries[0], depth);
      assert entries[0] == Entry(entries[0].key, entries[0].value);
    }
  }

  lemma ChildSanitized(v: Json, depth: nat, b: Branch)
    requires depth < MAX_DEPTH && (b.Under? ==> b.key != PROTO)
    ensures Child(SanitizeValue(v, depth), b) ==
      match Child(v, b)
      case None => None
      case Some(c) => Some(if b.Under? then Replaced(Entry(b.key, c), depth + 1) else SanitizeValue(c, depth + 1))
  {
    match (v, b)
    case (Array(items), Item(i)) => if i < |items| { SanitizedItemAt(items, depth + 1, i); }
    case (Object(entries), Under(key)) => ValueUnderKept(entries, depth + 1, key);
    case _ =>
  }

  lemma PublicChildSanitized(v: Json, depth: nat, b: Branch)
    requires depth < MAX_DEPTH && PublicBranch(b)
    ensures Child(SanitizeValue(v, depth), b) == Mapped(SanitizeValue, Child(v, b), depth + 1)
  {
    ChildSanitized(v, depth, b);
  }

  lemma SensitiveChildRedacted(v: Json, depth: nat, key: string)
    requires depth < MAX_DEPTH && IsSensitiveKey(key) && key != PROTO
    ensures Child(SanitizeValue(v, depth), Under(key)) == Mapped((_, _) => MARKER, Child(v, Under(key)), depth)
  {
    ChildSanitized(v, depth, Under(key));
  }

  function Mapped(f: (Json, nat) -> Json, v: Option<Json>, depth: nat): Option<Json> {
    match v
    case None => None
    case Some(w) => Some(f(w, depth))
  }

  /** The walk treats each child by a good branch as it treats the whole, one level down. */
  ghost predicate WalksBy(f: (Json, nat) -> Json, good: Branch -> bool) {
    forall w, d: nat, b | d < MAX_DEPTH && good(b) :: Child(f(w, d), b) == Mapped(f, Child(w, b), d + 1)
  }

  /** Then it does so all the way down. */
  lemma {:induction false} ReachMapped(
      f: (Json, nat) -> Json, good: Branch -> bool, v: Json, depth: nat, path: seq<Branch>)
    requires WalksBy(f, good) && depth + |path| <= MAX_DEPTH
    requires forall b | b in path :: good(b)
    ensures Reach(f(v, depth), path) == Mapped(f, Reach(v, path), depth + |path|)
    decreases |path|
  {
    if path != [] {
      assert path[0] in path && forall b | b in path[1..] :: b in path;
      if Child(v, path[0]).Some? { ReachMapped(f, good, Child(v, path[0]).value, depth + 1, path[1..]); }
    }
  }

  lemma SanitizingWalks()
    ensures WalksBy(SanitizeValue, PublicBranch)
  {
    forall w, d: nat, b | d < MAX_DEPTH && PublicBranch(b)
      ensures Child(SanitizeValue(w, d), b) == Mapped(SanitizeValue, Child(w, b), d + 1)
    {
      PublicChildSanitized(w, d, b);
    }
  }

  lemma ReachSanitized(v: Json, depth: nat, path: seq<Branch>)
    requires Public(path) && depth + |path| <= MAX_DEPTH
    ensures Reach(SanitizeValue(v, depth), path) == Mapped(SanitizeValue, Reach(v, path), depth + |path|)
  {
    SanitizingWalks();
    ReachMapped(SanitizeValue, PublicBranch, v, depth, path);
  }

  lemma SanitizedIsKept(v: Json, depth: nat)
    requires depth <= MAX_DEPTH
    ensures Kept(v, SanitizeValue(v, depth))
  {
  }

  /**
    Down any path of at most eight branches on which no key is sensitive there is a value after
    sanitizing if and only if there was one before. A text has been redacted, another plain value is
    untouched, an array has kept its length and an object is an object.
   */
  lemma PublicValuesKept(v: Json, path: seq<Branch>)
    requires Public(path) && |path| <= 8
    ensures Reach(SanitizeValue(v, 0), path).Some? <==> Reach(v, path).Some?
    ensures Reach(v, path).Some? ==> Kept(Reach(v, path).value, Reach(SanitizeValue(v, 0), path).value)
  {
    ReachSanitized(v, 0, path);
    if Reach(v, path).Some? { SanitizedIsKept(Reach(v, path).value, |path|); }
  }

  lemma {:induction false} ReachSnoc(v: Json, path: seq<Branch>, b: Branch)
    ensures Reach(v, path + [b]) == match Reach(v, path) case None => None case Some(w) => Child(w, b)
    decreases |path|
  {
    if path == [] {
      assert (path + [b])[1..] == [];
    } else {
      assert (path + [b])[1..] == path[1..] + [b];
      if Child(v, path[0]).Some? { ReachSnoc(Child(v, path[0]).value, path[1..], b); }
    }
  }

  /** The value under a sensitive key at the end of such a path becomes the marker, whatever it was. */
  lemma SensitiveValuesRedacted(v: Json, path: seq<Branch>, key: string)
    requires Public(path) && |path| < 8 && IsSensitiveKey(key) && key != PROTO
    ensures Reach(SanitizeValue(v, 0), path + [Under(key)]) ==
      if Reach(v, path + [Under(key)]).None? then None else Some(String("[REDACTED]"))
  {
    ReachSanitized(v, 0, path);
    ReachSnoc(v, path, Under(key));
    ReachSnoc(SanitizeValue(v, 0), path, Under(key));
    if Reach(v, path).Some? { SensitiveChildRedacted(Reach(v, path).value, |path|, key); }
  }

  // ----- log payloads -----

  /** A log on its way to the store: its text, its metadata, and fields of type T that pass through. */
  datatype Payload<T> = Payload(message: string, metadata: Option<seq<Entry>>, rest: T)

  function SanitizeLogPayload<T>(payload: Payload<T>): (r: Payload<T>)
    ensures r.rest == payload.rest && r.metadata.Some? == payload.metadata.Some?
  {
    payload.(
      message := SanitizeString(payload.message),
      metadata := match payload.metadata
        case None => None
        case Some(entries) => Some(SanitizedObject(entries, 0)))
  }

  ghost predicate SafePayload<T>(payload: Payload<T>) {
    TokenFree(payload.message) && (payload.metadata.Some? ==> SafeEntries(payload.metadata.value))
  }

  /** A sanitized log payload carries no token and no sensitive value, and sanitizing it again changes nothing. */
  lemma SanitizedPayloadIsSafe<T>(payload: Payload<T>)
    ensures SafePayload(SanitizeLogPayload(payload))
    ensures SanitizeLogPayload(SanitizeLogPayload(payload)) == SanitizeLogPayload(payload)
  {
    SanitizedIsTokenFree(payload.message);
    SanitizeStringIdempotent(payload.message);
    if payload.metadata.Some? { SanitizedObjectIdempotent(payload.metadata.value, 0); }
  }

  /** Sanitizing leaves a payload alone if and only if its text is token-free and its metadata are safe and fit. */
  lemma PayloadUnchangedIff<T>(payload: Payload<T>)
    ensures SanitizeLogPayload(payload) == payload <==>
      && TokenFree(payload.message)
      && (payload.metadata.Some? ==> SafeEntries(payload.metadata.value) && FitsEntries(payload.metadata.value, 0))
  {
    UnchangedIffTokenFree(payload.message);
    if payload.metadata.Some? { ObjectUnchangedIff(payload.metadata.value); }
  }

  lemma ObjectUnchangedIff(entries: seq<Entry>)
    ensures SanitizedObject(entries, 0) == entries <==> SafeEntries(entries) && FitsEntries(entries, 0)
  {
    SanitizedEntriesAreCut(entries, 0);
    SanitizedObjectIdempotent(entries, 0);
    UnlimitedEntriesUnchanged(entries);
    CutEntriesUnchanged(entries, 0);
    CutObjectFits(UnlimitedEntries(entries), 0);
  }

  /**
    What a payload keeps: of its text all but the tokens, of its metadata the keys and their order, each
    sensitive one with the marker and each other one with its value sanitized, and every other field.
   */
  lemma PayloadOutcome<T>(payload: Payload<T>, key: string, v: Json)
    ensures var out := SanitizeLogPayload(payload);
      && Redacts(payload.message, out.message) && out.rest == payload.rest
      && (out.metadata.Some? <==> payload.metadata.Some?)
      && (payload.metadata.Some? ==>
            && Keys(out.metadata.value) == WithoutProto(Keys(payload.metadata.value))
            && (Entry(key, v) in out.metadata.value <==> Arises(payload.metadata.value, 0, key, v)))
  {
    SanitizeStringRedacts(payload.message, SanitizeString(payload.message));
    if payload.metadata.Some? {
      SanitizedKeepsKeys(payload.metadata.value, 0);
      SanitizedEntryValues(payload.metadata.value, 0, key, v);
    }
  }
}
