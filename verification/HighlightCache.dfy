/** The weighted LRU cache of highlight results and the service in front of it (crates/highlight/src/lib.rs). The parser is
    an uninterpreted function of source and language. */
module HighlightCache {
  import opened Wrappers
  import opened KeyedQueue
  import opened HighlightSpans
  import opened TokenLookup
  import Document

  function SaturatingAdd(a: nat, b: nat): nat {
    if a + b > USIZE_MAX then USIZE_MAX else a + b
  }

  function SaturatingSub(a: nat, b: nat): nat {
    if a < b then 0 else a - b
  }

  /** The fingerprint of a source is injective, so the key holds the source itself. */
  datatype Key = Key(source: seq<Byte>, side: Document.Side, language: string, theme: string)

  datatype Entry = Entry(tokens: seq<Token>, weight: nat)

  type Items = seq<Item<Key, Entry>>

  function Total(items: Items): nat {
    if items == [] then 0 else items[0].value.weight + Total(items[1..])
  }

  /** Least recent first: `Touched` makes a key the most recent one. */
  function Touched(items: Items, key: Key): Items {
    match Lookup(items, key)
    case None => items
    case Some(entry) => Without(items, key) + [Item(key, entry)]
  }

  /** Drops the oldest items until the rest fits. */
  function Fit(items: Items, capacity: nat): Items {
    if items == [] || Total(items) <= capacity then items else Fit(items[1..], capacity)
  }

  function Inserted(items: Items, item: Item<Key, Entry>, capacity: nat): Items {
    if capacity == 0 || item.value.weight > capacity then items
    else Fit(Without(items, item.key) + [item], capacity)
  }

  lemma {:induction false} TotalConcat(a: Items, b: Items)
    ensures Total(a + b) == Total(a) + Total(b)
  {
    if a == [] {
      assert a + b == b;
    } else {
      assert (a + b)[1..] == a[1..] + b;
      TotalConcat(a[1..], b);
    }
  }

  lemma DistinctTail(items: Items)
    requires Distinct(items) && items != []
    ensures Distinct(items[1..]) && Absent(items[1..], items[0].key)
  {
    assert forall k | 0 <= k < |items[1..]| :: items[1..][k] == items[k + 1];
  }

  lemma {:induction false} TotalWithout(items: Items, key: Key)
    requires Distinct(items)
    ensures Total(Without(items, key)) == Total(items) - match Lookup(items,
            key) case Some(entry) => entry.weight case None => 0
    decreases |items|
  {
    if items != [] {
      var rest := Without(items[1..], key);
      DistinctTail(items);
      TotalWithout(items[1..], key);
      if items[0].key == key {
        LookupAbsent(items[1..], key);
      } else {
        assert ([items[0]] + rest)[1..] == rest;
      }
    }
  }

  /** The items from `k` on fit, and no longer recent part does. */
  predicate LongestFrom(items: Items, k: nat, capacity: nat) {
    k <= |items| && Total(items[k..]) <= capacity && forall j | 0 <= j < k :: Total(items[j..]) > capacity
  }

  /** How many of the oldest items are dropped. */
  function Evictions(items: Items, capacity: nat): nat {
    if items == [] || Total(items) <= capacity then 0 else 1 + Evictions(items[1..], capacity)
  }

  /** What is kept is the longest most recent part that fits. */
  lemma {:induction false} FitIsLongestSuffix(items: Items, capacity: nat)
    ensures LongestFrom(items, Evictions(items, capacity), capacity)
    ensures Fit(items, capacity) == items[Evictions(items, capacity)..]
  {
    if items == [] || Total(items) <= capacity {
      assert items[0..] == items;
    } else {
      var k := Evictions(items[1..], capacity) + 1;
      FitIsLongestSuffix(items[1..], capacity);
      assert items[1..][k - 1..] == items[k..];
      forall j | 0 <= j < k ensures Total(items[j..]) > capacity {
        if j > 0 {
          assert items[1..][j - 1..] == items[j..];
        } else {
          assert items[0..] == items;
        }
      }
    }
  }

  lemma {:induction false} FitKeepsLast(items: Items, item: Item<Key, Entry>, capacity: nat)
    requires item.value.weight <= capacity
    ensures Fit(items + [item], capacity) != [] && Fit(items + [item], capacity)[|Fit(items + [item], capacity)| - 1] == item
  {
    if items == [] {
      assert items + [item] == [item] && [item][1..] == [] && Total([item]) == item.value.weight;
    } else {
      assert (items + [item])[1..] == items[1..] + [item];
      FitKeepsLast(items[1..], item, capacity);
    }
  }

  /** An accepted insert makes its key the most recent one and keeps exactly the longest most recent part that fits. */
  lemma InsertKeepsLongestSuffix(items: Items, item: Item<Key, Entry>, capacity: nat)
    requires capacity > 0 && item.value.weight <= capacity
    ensures var all, kept := Without(items, item.key) + [item], Inserted(items, item, capacity);
            && kept != [] && kept[|kept| - 1] == item && Total(kept) <= capacity
            && LongestFrom(all, Evictions(all, capacity), capacity) && kept == all[Evictions(all, capacity)..]
  {
    FitKeepsLast(Without(items, item.key), item, capacity);
    FitIsLongestSuffix(Without(items, item.key) + [item], capacity);
  }

  /** Adding two weights that fit never saturates exactly when the capacity is at most half the range. */
  lemma SaturationFree(capacity: nat)
    ensures (forall a: nat, b: nat | a <= capacity &&
            b <= capacity :: SaturatingAdd(a, b) == a + b) <==> 2 * capacity <= USIZE_MAX
  {
    if forall a: nat, b: nat | a <= capacity && b <= capacity :: SaturatingAdd(a, b) == a + b {
      assert SaturatingAdd(capacity, capacity) == capacity + capacity;
    }
  }

  /** A lookup that hits moves its entry to the end, where the most recent one is. */
  lemma TouchedMoves(items: Items, key: Key)
    requires Distinct(items)
    ensures Absent(items, key) ==> Touched(items, key) == items
    ensures forall k | 0 <= k < |items| && items[k].key == key ::
              Touched(items, key) == items[..k] + items[k + 1..] + [items[k]]
  {
    if Absent(items, key) {
      LookupAbsent(items, key);
    }
    forall k | 0 <= k < |items| && items[k].key == key
      ensures Touched(items, key) == items[..k] + items[k + 1..] + [items[k]]
    {
      LookupAt(items, k);
      WithoutAt(items, k);
    }
  }

  predicate Within(items: Items, capacity: nat) {
    Distinct(items) && Total(items) <= capacity
  }

  lemma TouchedWithin(items: Items, key: Key, capacity: nat)
    requires Within(items, capacity)
    ensures Within(Touched(items, key), capacity) && Total(Touched(items, key)) == Total(items)
  {
    if Lookup(items, key).Some? {
      var item := Item(key, Lookup(items, key).value);
      TotalWithout(items, key);
      TotalConcat(Without(items, key), [item]);
      WithoutDistinct(items, key);
      assert [item][1..] == [];
    }
  }

  lemma {:induction false} WithoutDistinct(items: Items, key: Key)
    requires Distinct(items)
    ensures Distinct(Without(items, key))
    ensures forall item :: item in Without(items, key) <==> item in items && item.key != key
  {
    if items != [] {
      DistinctTail(items);
      assert items == [items[0]] + items[1..];
      WithoutDistinct(items[1..], key);
      forall item | item in items[1..] ensures item.key != items[0].key {
        var k :| 0 <= k < |items[1..]| && items[1..][k] == item;
        assert items[k + 1] == item;
      }
    }
  }

  /** A key's entry replaced by another one, most recent. */
  lemma Exchanged(entries: map<Key, Entry>, order: seq<Key>, items: Items, item: Item<Key, Entry>)
    requires Holds(entries, order, items) && Distinct(items)
    ensures var all := Without(items, item.key) + [item];
            && Holds((entries - {item.key})[item.key := item.value], Retain(order, item.key) + [item.key], all)
            && Distinct(all)
            && Total(all) + (match Lookup(items, item.key) case Some(entry) => entry.weight case None => 0) ==
               Total(items) + item.value.weight
            && Total(all) >= item.value.weight
  {
    HoldsWithout(entries, order, items, item.key);
    HoldsMore(entries - {item.key}, Retain(order, item.key), Without(items, item.key), item);
    ExchangedTotal(items, item);
  }

  lemma ExchangedTotal(items: Items, item: Item<Key, Entry>)
    requires Distinct(items)
    ensures var all := Without(items, item.key) + [item];
            && Distinct(all)
            && Total(all) + (match Lookup(items, item.key) case Some(entry) => entry.weight case None => 0) ==
               Total(items) + item.value.weight
            && Total(all) >= item.value.weight
  {
    TotalWithout(items, item.key);
    WithoutDistinct(items, item.key);
    TotalConcat(Without(items, item.key), [item]);
    assert [item][1..] == [] && Total([item]) == item.value.weight;
  }

  class WeightedLru {
    var entries: map<Key, Entry>
    var recency: seq<Key>
    const capacity: nat
    var weight: nat
    /** The entries, least recent first. */
    ghost var items: Items

    /** The recency queue lists the keys once each, the weight is the sum of the entries' weights, and it fits. */
    ghost predicate Valid()
      reads this
    {
      Holds(entries, recency, items) && Within(items, capacity) && weight == Total(items) && 2 * capacity <= USIZE_MAX
    }

    constructor (capacity: nat)
      requires 2 * capacity <= USIZE_MAX
      ensures Valid() && this.capacity == capacity && items == []
    {
      entries, recency, weight, items := map[], [], 0, [];
      this.capacity := capacity;
    }

    method Touch(key: Key)
      requires Valid() && key in entries
      modifies this`recency, this`items
      ensures Valid() && items == Touched(old(items), key)
    {
      HoldsFound(entries, recency, items, key);
      HoldsWithout(entries, recency, items, key);
      TouchedWithin(items, key, capacity);
      HoldsMore(entries - {key}, Retain(recency, key), Without(items, key), Item(key, entries[key]));
      assert (entries - {key})[key := entries[key]] == entries;
      recency := Retain(recency, key) + [key];
      items := Touched(items, key);
    }

    method Get(key: Key, byteRanges: Option<seq<Range>>) returns (tokens: Option<seq<Token>>)
      requires Valid() && forall item | item in items :: Laid(item.value.tokens)
      modifies this`recency, this`items
      ensures Valid() && items == Touched(old(items), key)
      ensures tokens == match Lookup(old(items), key)
                        case Some(entry) => Some(Visible(entry.tokens, byteRanges))
                        case None => None
    {
      HoldsFound(entries, recency, items, key);
      if key !in entries {
        return None;
      }
      LookupPresent(items, key);
      var visible := TokensInByteRanges(entries[key].tokens, byteRanges);
      Touch(key);
      return Some(visible);
    }

    method Insert(key: Key, tokens: seq<Token>, entryWeight: nat)
      requires Valid()
      modifies this`entries, this`recency, this`weight, this`items
      ensures Valid() && items == Inserted(old(items), Item(key, Entry(tokens, entryWeight)), capacity)
    {
      if capacity == 0 || entryWeight > capacity {
        return;
      }
      ghost var all := Without(items, key) + [Item(key, Entry(tokens, entryWeight))];
      HoldsFound(entries, recency, items, key);
      Exchanged(entries, recency, items, Item(key, Entry(tokens, entryWeight)));
      if key in entries {
        weight := SaturatingSub(weight, entries[key].weight);
        entries := entries - {key};
        recency := Retain(recency, key);
      } else {
        UnlistedStays(entries, recency, items, key);
      }
      weight := SaturatingAdd(weight, entryWeight);
      recency := recency + [key];
      entries := entries[key := Entry(tokens, entryWeight)];
      items := all;
      while weight > capacity
        invariant Holds(entries, recency, items) && Distinct(items) && weight == Total(items) && 2 * capacity <= USIZE_MAX
        invariant Fit(items, capacity) == Fit(all, capacity)
        decreases |items|
      {
        var oldest := recency[0];
        recency := recency[1..];
        weight := SaturatingSub(weight, entries[oldest].weight);
        entries := entries - {oldest};
        items := items[1..];
      }
    }
  }

  lemma {:induction false} UnlistedItems(entries: map<Key, Entry>, order: seq<Key>, items: Items, key: Key)
    requires Holds(entries, order, items) && key !in entries
    ensures Without(items, key) == items
  {
    if items != [] {
      UnlistedItems(entries - {order[0]}, order[1..], items[1..], key);
      assert items == [items[0]] + items[1..];
    }
  }

  lemma {:induction false} UnlistedOrder(entries: map<Key, Entry>, order: seq<Key>, items: Items, key: Key)
    requires Holds(entries, order, items) && key !in entries
    ensures Retain(order, key) == order
  {
    if items != [] {
      UnlistedOrder(entries - {order[0]}, order[1..], items[1..], key);
      assert order == [order[0]] + order[1..];
    }
  }

  lemma UnlistedStays(entries: map<Key, Entry>, order: seq<Key>, items: Items, key: Key)
    requires Holds(entries, order, items) && key !in entries
    ensures Without(items, key) == items && Retain(order, key) == order && entries - {key} == entries
  {
    UnlistedItems(entries, order, items, key);
    UnlistedOrder(entries, order, items, key);
  }

  /* ---- The service ---- */

  datatype Reason = UnknownLanguage | Binary | Generated | FileTooLarge | TooManyLines | UnsupportedMixedLanguage |
                    UnsupportedLanguage | ParseFailure | Cancelled

  datatype Status = Highlighted | PlainText(reason: Reason)

  datatype Answer = Answer(key: Option<Key>, language: Option<string>, status: Status, tokens: seq<Token>)

  datatype Request = Request(path: string, source: seq<Byte>, attribute: Option<string>, side: Document.Side,
      theme: string, force: bool)

  /** The events a parse delivers, and whether it then fails. */
  datatype Parse = Parse(events: seq<Event>, fails: bool)

  datatype Grammar = Unknown | Broken | Ready(names: ClassTable, parse: seq<Byte> -> Parse)

  /** What the service is built over: the language rules, the eligibility policy and the parsers. */
  datatype Rules = Rules(resolve: Request -> Option<string>, reason: Request -> Option<Reason>, grammar: string -> Grammar)

  const MIXED := {"svelte", "vue", "astro"}
  const UNSUPPORTED := {"hcl", "dart", "perl", "dockerfile"}

  /** When the caller cancels: before the parse starts, or after some of its events. */
  datatype Cancellation = Never | AtOnce | AfterEvents(n: nat)

  function Plain(language: Option<string>, reason: Reason): Answer {
    Answer(None, language, PlainText(reason), [])
  }

  function KeyOf(request: Request, language: string): Key {
    Key(request.source, request.side, language, request.theme)
  }

  /** Why a request is answered without looking at the cache, if it is. */
  function Declined(rules: Rules, request: Request): Option<Answer> {
    match rules.resolve(request)
    case None => Some(Plain(None, UnknownLanguage))
    case Some(language) =>
      if rules.reason(request).Some? then Some(Plain(Some(language), rules.reason(request).value))
      else if language in MIXED then Some(Plain(Some(language), UnsupportedMixedLanguage))
      else if language in UNSUPPORTED then Some(Plain(Some(language), UnsupportedLanguage))
      else None
  }

  /** The complete spans of a key, when its grammar can parse its source. */
  function FullTokens(rules: Rules, key: Key): Option<seq<Token>> {
    match rules.grammar(key.language)
    case Ready(names, parse) =>
      if parse(key.source).fails then None else Some(Compile(parse(key.source).events, key.source, names, key.side))
    case _ => None
  }

  /** The answer of a service without a cache to an eligible request. */
  function Parsed(rules: Rules, request: Request, language: string, cancellation: Cancellation,
      byteRanges: Option<seq<Range>>): Answer {
    var key := KeyOf(request, language);
    if cancellation.AtOnce? then Plain(Some(language), Cancelled)
    else
      match rules.grammar(language)
      case Unknown => Plain(Some(language), UnknownLanguage)
      case Broken => Plain(Some(language), ParseFailure)
      case Ready(names, parse) =>
        var events := parse(request.source).events;
        if cancellation.AfterEvents? && cancellation.n <= |events| then Plain(Some(language), Cancelled)
        else if parse(request.source).fails then Plain(Some(language), ParseFailure)
        else Answer(Some(key), Some(language), Highlighted, Visible(Compile(events, request.source, names,
            request.side), byteRanges))
  }

  function Uncached(rules: Rules, request: Request, cancellation: Cancellation, byteRanges: Option<seq<Range>>): Answer {
    match Declined(rules, request)
    case Some(answer) => answer
    case None => Parsed(rules, request, rules.resolve(request).value, cancellation, byteRanges)
  }

  /** The status of an answer, told from the request and the rules alone. */
  function StatusOf(rules: Rules, request: Request, cancellation: Cancellation): Status {
    var language, reason := rules.resolve(request), rules.reason(request);
    if language == None then PlainText(UnknownLanguage)
    else if reason != None then PlainText(reason.value)
    else if language.value == "svelte" || language.value == "vue" || language.value == "astro"
    then PlainText(UnsupportedMixedLanguage)
    else if language.value == "hcl" || language.value == "dart" || language.value == "perl" ||
            language.value == "dockerfile"
    then PlainText(UnsupportedLanguage)
    else if cancellation == AtOnce then PlainText(Cancelled)
    else
      match rules.grammar(language.value)
      case Unknown => PlainText(UnknownLanguage)
      case Broken => PlainText(ParseFailure)
      case Ready(_, parse) =>
        if cancellation.AfterEvents? && cancellation.n <= |parse(request.source).events| then PlainText(Cancelled)
        else if parse(request.source).fails then PlainText(ParseFailure)
        else Highlighted
  }

  ghost predicate InRanges(t: Token, byteRanges: Option<seq<Range>>) {
    byteRanges == None || exists r :: r in byteRanges.value && r.0 < r.1 && t.start < r.1 && r.0 < t.end
  }

  /** What the service without a cache answers, told from the events of the parse: the status, the key and the language;
      and when there are spans, without ranges they paint the bytes as the events do, and with ranges they are the ones of
      these that share a byte with a range, in order. */
  lemma AnswersMean(rules: Rules, request: Request, cancellation: Cancellation, byteRanges: Option<seq<Range>>)
    requires InOrderParsers(rules)
    ensures var r := Uncached(rules, request, cancellation, byteRanges);
            && r.status == StatusOf(rules, request, cancellation) && r.language == rules.resolve(request)
            && (r.status != Highlighted ==> r.key == None && r.tokens == [])
    ensures StatusOf(rules, request, cancellation) == Highlighted ==>
              var r := Uncached(rules, request, cancellation, byteRanges);
              var all := Uncached(rules, request, Never, None).tokens;
              var language := rules.resolve(request).value;
              var events := rules.grammar(language).parse(request.source).events;
              && r.key == Some(Key(request.source, request.side, language, request.theme))
              && Laid(r.tokens) && (forall t :: t in r.tokens <==> t in all && InRanges(t, byteRanges))
              && IsShortest(all, request.side)
              && (forall b: nat, c :: (exists t :: t in all && t.start <= b < t.end && t.syntax == c) <==>
                    Painted(events, request.source, rules.grammar(language).names, |events|, b, c))
  {
    if StatusOf(rules, request, cancellation) == Highlighted {
      var language := rules.resolve(request).value;
      var grammar := rules.grammar(language);
      var events := grammar.parse(request.source).events;
      var all := Compile(events, request.source, grammar.names, request.side);
      assert Uncached(rules, request, Never, None).tokens == all;
      forall b: nat, c
        ensures (exists t :: t in all && t.start <= b < t.end && t.syntax == c) <==>
                Painted(events, request.source, grammar.names, |events|, b, c)
      {
        SpansPaintBytes(events, request.source, grammar.names, request.side, b, c);
      }
      CompilePreservesMeaning(events, request.source, grammar.names, request.side, 0);
      CanonicalMeans(all, request.side);
      CanonicalIsLaid(all, request.side);
      VisibleAre(all, byteRanges);
    }
  }

  lemma VisibleAre(all: seq<Token>, byteRanges: Option<seq<Range>>)
    requires Laid(all)
    ensures Laid(Visible(all, byteRanges))
    ensures forall t :: t in Visible(all, byteRanges) <==> t in all && InRanges(t, byteRanges)
  {
    if byteRanges.Some? {
      FilterKeepsOrder(all, byteRanges.value);
      forall t ensures t in Filter(all, byteRanges.value) <==> t in all && InRanges(t, byteRanges) {
        FilterHolds(all, byteRanges.value, t);
      }
    }
  }

  /** Parsers deliver their source events in order. */
  ghost predicate InOrderParsers(rules: Rules) {
    forall language, source ::
      rules.grammar(language).Ready? ==> InOrder(rules.grammar(language).parse(source).events)
  }

  lemma TokensAreLaid(rules: Rules, key: Key)
    requires InOrderParsers(rules) && FullTokens(rules, key).Some?
    ensures Laid(FullTokens(rules, key).value)
  {
    var grammar := rules.grammar(key.language);
    CompilePreservesMeaning(grammar.parse(key.source).events, key.source, grammar.names, key.side, 0);
    CanonicalIsLaid(FullTokens(rules, key).value, key.side);
  }

  /** Source bytes and a share for each span. */
  function WeightOf(key: Key, tokens: seq<Token>): nat {
    SaturatingAdd(|key.source|, SaturatingMul(|tokens|, 24))
  }

  /** An entry is the complete result its key determines, with its weight. */
  ghost predicate IsTrue(rules: Rules, item: Item<Key, Entry>) {
    FullTokens(rules, item.key) == Some(item.value.tokens) && item.value.weight == WeightOf(item.key, item.value.tokens)
  }

  ghost predicate Truthful(rules: Rules, items: Items) {
    forall item | item in items :: IsTrue(rules, item)
  }

  lemma {:induction false} FitTruthful(rules: Rules, items: Items, capacity: nat)
    requires Truthful(rules, items)
    ensures Truthful(rules, Fit(items, capacity))
  {
    if items != [] && Total(items) > capacity {
      FitTruthful(rules, items[1..], capacity);
    }
  }

  lemma {:induction false} WithoutTruthful(rules: Rules, items: Items, key: Key)
    requires Truthful(rules, items)
    ensures Truthful(rules, Without(items, key))
  {
    if items != [] {
      assert forall item | item in items[1..] :: item in items;
      WithoutTruthful(rules, items[1..], key);
    }
  }

  class HighlightService {
    const rules: Rules
    const cache: WeightedLru

    ghost predicate Valid()
      reads this, cache
    {
      cache.Valid() && InOrderParsers(rules) && Truthful(rules, cache.items)
    }

    constructor (rules: Rules, capacity: nat)
      requires InOrderParsers(rules) && 2 * capacity <= USIZE_MAX
      ensures Valid() && fresh(cache) && this.rules == rules && cache.items == []
    {
      this.rules := rules;
      cache := new WeightedLru(capacity);
    }

    /** The parse and its event loop. Spans are only kept when the parse came to its end. */
    method RunParser(request: Request, names: ClassTable, parse: Parse, cancellation: Cancellation)
      returns (tokens: Result<seq<Token>, Reason>)
      ensures tokens == if cancellation.AfterEvents? && cancellation.n <= |parse.events| then Err(Cancelled)
                        else if parse.fails then Err(ParseFailure)
                        else Ok(Compile(parse.events, request.source, names, request.side))
    {
      var seen := if cancellation.AfterEvents? && cancellation.n <= |parse.events| then cancellation.n else |parse.events|;
      var spans := CompileEvents(parse.events[..seen], request.source, names, request.side);
      if cancellation.AfterEvents? && cancellation.n <= |parse.events| {
        return Err(Cancelled);
      }
      assert parse.events[..seen] == parse.events;
      return if parse.fails then Err(ParseFailure) else Ok(spans);
    }

    /** Other requests use the cache while this one parses without its lock: any lookups, and insertions of what a parse
        of their key gives. */
    method OthersAct()
      requires Valid()
      modifies cache`entries, cache`recency, cache`weight, cache`items
      ensures Valid()
    {
      var rounds: nat :| true;
      for i := 0 to rounds
        invariant Valid()
      {
        var key: Key, lookup: bool := *, *;
        ghost var before := cache.items;
        var tokens := FullTokens(rules, key);
        if lookup {
          CachedIsLaid(rules, before);
          var _ := cache.Get(key, None);
          TouchedTruthful(rules, before, key);
        } else if tokens.Some? {
          cache.Insert(key, tokens.value, WeightOf(key, tokens.value));
          InsertedTruthful(rules, before, Item(key, Entry(tokens.value, WeightOf(key, tokens.value))), cache.capacity);
        }
      }
    }

    /** A request for the spans in some viewport ranges. The cache is invisible: a hit gives the answer an uncancelled
        service without a cache would give, a miss the answer that service gives to this very request, whatever other
        requests do to the cache in between. After spans were found the most recent entry is the one of this request, if
        it can fit, with all spans and its weight; otherwise the cache is as it was. */
    method HighlightRanges(request: Request, cancellation: Cancellation, byteRanges: Option<seq<Range>>) returns (r: Answer)
      requires Valid()
      modifies cache`entries, cache`recency, cache`weight, cache`items
      ensures Valid()
      ensures r == Uncached(rules, request, cancellation, byteRanges) || r == Uncached(rules, request, Never, byteRanges)
      ensures r.status != PlainText(Cancelled) ==> r == Uncached(rules, request, Never, byteRanges)
      ensures cancellation.Never? ==> r == Uncached(rules, request, Never, byteRanges)
      ensures r.status != Highlighted ==> cache.items == old(cache.items)
      ensures r.status == Highlighted ==>
                IsMostRecent(cache.items, r.key, Uncached(rules, request, Never, None).tokens, cache.capacity)
    {
      var resolved := rules.resolve(request);
      if resolved.None? {
        return Plain(None, UnknownLanguage);
      }
      var language := resolved.value;
      var reason := rules.reason(request);
      if reason.Some? {
        return Plain(Some(language), reason.value);
      }
      if language in MIXED {
        return Plain(Some(language), UnsupportedMixedLanguage);
      }
      if language in UNSUPPORTED {
        return Plain(Some(language), UnsupportedLanguage);
      }
      var key := KeyOf(request, language);
      CachedIsLaid(rules, cache.items);
      ghost var before := cache.items;
      var hit := cache.Get(key, byteRanges);
      TouchedTruthful(rules, before, key);
      if hit.Some? {
        TouchedIsRecent(rules, before, key, cache.capacity);
        return Answer(Some(key), Some(language), Highlighted, hit.value);
      }
      if cancellation.AtOnce? {
        return Plain(Some(language), Cancelled);
      }
      var grammar := rules.grammar(language);
      if grammar.Unknown? {
        return Plain(Some(language), UnknownLanguage);
      }
      if grammar.Broken? {
        return Plain(Some(language), ParseFailure);
      }
      var parsed := RunParser(request, grammar.names, grammar.parse(request.source), cancellation);
      if parsed.Err? {
        return Plain(Some(language), parsed.error);
      }
      var tokens := parsed.value;
      var weight := WeightOf(key, tokens);
      TokensAreLaid(rules, key);
      var visible := TokensInByteRanges(tokens, byteRanges);
      OthersAct();
      ghost var items := cache.items;
      cache.Insert(key, tokens, weight);
      InsertedTruthful(rules, items, Item(key, Entry(tokens, weight)), cache.capacity);
      InsertedIsRecent(items, key, tokens, cache.capacity);
      return Answer(Some(key), Some(language), Highlighted, visible);
    }
  }

  /** The entry of the key is the most recent one and has these spans, unless it weighs more than the capacity. */
  predicate IsMostRecent(items: Items, key: Option<Key>, tokens: seq<Token>, capacity: nat) {
    key.Some? &&
    var sum := |key.value.source| + 24 * |tokens|;
    var weight := if sum > 0xFFFF_FFFF_FFFF_FFFF then 0xFFFF_FFFF_FFFF_FFFF else sum;
    0 < capacity && weight <= capacity ==> items != [] && items[|items| - 1] == Item(key.value, Entry(tokens, weight))
  }

  lemma InsertedIsRecent(items: Items, key: Key, tokens: seq<Token>, capacity: nat)
    ensures IsMostRecent(Inserted(items, Item(key, Entry(tokens, WeightOf(key, tokens))), capacity), Some(key), tokens,
                         capacity)
  {
    var item := Item(key, Entry(tokens, WeightOf(key, tokens)));
    if 0 < capacity && item.value.weight <= capacity {
      InsertKeepsLongestSuffix(items, item, capacity);
    }
  }

  lemma TouchedIsRecent(rules: Rules, items: Items, key: Key, capacity: nat)
    requires Truthful(rules, items) && Lookup(items, key).Some?
    ensures IsMostRecent(Touched(items, key), Some(key), Lookup(items, key).value.tokens, capacity)
  {
    LookupPresent(items, key);
    assert IsTrue(rules, Item(key, Lookup(items, key).value));
  }

  function SaturatingMul(a: nat, b: nat): nat {
    if a * b > USIZE_MAX then USIZE_MAX else a * b
  }

  lemma CachedIsLaid(rules: Rules, items: Items)
    requires InOrderParsers(rules) && Truthful(rules, items)
    ensures forall item | item in items :: Laid(item.value.tokens)
  {
    forall item | item in items ensures Laid(item.value.tokens) {
      TokensAreLaid(rules, item.key);
    }
  }

  /** A hit is the complete result of its key, and touching it changes no entry. */
  lemma TouchedTruthful(rules: Rules, items: Items, key: Key)
    requires Truthful(rules, items)
    ensures Truthful(rules, Touched(items, key))
    ensures Lookup(items, key).Some? ==> FullTokens(rules, key) == Some(Lookup(items, key).value.tokens)
  {
    if Lookup(items, key).Some? {
      LookupPresent(items, key);
      WithoutTruthful(rules, items, key);
    }
  }

  lemma InsertedTruthful(rules: Rules, items: Items, item: Item<Key, Entry>, capacity: nat)
    requires Truthful(rules, items) && IsTrue(rules, item)
    ensures Truthful(rules, Inserted(items, item, capacity))
  {
    WithoutTruthful(rules, items, item.key);
    FitTruthful(rules, Without(items, item.key) + [item], capacity);
  }
}
