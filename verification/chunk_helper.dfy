/**
 `ChunkHelper`: the per-run registry of chunk constants. It hands out names
 `prefix + n` from a counter starting at zero and keeps the chunk literals in a
 `LinkedHashMap`, i.e. a map that remembers first-insertion order. The mutable
 object becomes a value threaded through the generator.
 */
module ChunkHelpers {
  import opened JavaText

  /** One mapping of the registry: a constant name and the quoted literal it is initialised with. */
  datatype Entry = Entry(name: Text, literal: Text)

  /** `_staticMemVarPrefix`, `_nextId` and `_lookups`, the last in insertion order. */
  datatype ChunkHelper = ChunkHelper(prefix: Text, nextId: nat, lookups: seq<Entry>)

  /** The keys of a registry, in insertion order. */
  function Names(es: seq<Entry>): (ns: seq<Text>)
    ensures |ns| == |es|
  {
    if |es| == 0 then [] else [es[0].name] + Names(es[1..])
  }

  lemma {:induction false} NamesAt(es: seq<Entry>)
    ensures forall i :: 0 <= i < |es| ==> Names(es)[i] == es[i].name
  {
    if |es| > 0 {
      NamesAt(es[1..]);
    }
  }

  /** `Map.get`: the literal registered under `k`, or `None`. */
  function Lookup(es: seq<Entry>, k: Text): (r: Option<Text>)
    ensures r.None? <==> k !in Names(es)
  {
    if |es| == 0 then None
    else if es[0].name == k then Some(es[0].literal)
    else Lookup(es[1..], k)
  }

  /** No key occurs twice, as in any `java.util.Map`. */
  predicate DistinctNames(es: seq<Entry>) {
    forall i, j :: 0 <= i < j < |es| ==> es[i].name != es[j].name
  }

  /**
   `LinkedHashMap.put`: a new key goes to the end of the insertion order; an
   existing key keeps its place and takes the new value; nothing else moves.
   */
  function Put(es: seq<Entry>, k: Text, v: Text): (r: seq<Entry>)
    ensures k !in Names(es) ==> r == es + [Entry(k, v)]
    ensures k in Names(es) ==> Names(r) == Names(es)
    ensures Lookup(r, k) == Some(v)
  {
    if |es| == 0 then [Entry(k, v)]
    else if es[0].name == k then [Entry(k, v)] + es[1..]
    else
      var p := Put(es[1..], k, v);
      var r := [es[0]] + p;
      assert r[0] == es[0] && r[1..] == p;
      assert k !in Names(es) ==> r == es + [Entry(k, v)] by {
        if k !in Names(es) {
          assert es == [es[0]] + es[1..];
        }
      }
      r
  }

  /** A `put` adds at most its own key to the key set. */
  lemma {:induction false} PutNames(es: seq<Entry>, k: Text, v: Text)
    ensures forall x :: x in Names(Put(es, k, v)) <==> x == k || x in Names(es)
  {
    if |es| > 0 && es[0].name != k {
      PutNames(es[1..], k, v);
    }
  }

  /** A `put` leaves the value of every other key as it was. */
  lemma {:induction false} PutKeepsOthers(es: seq<Entry>, k: Text, v: Text, k': Text)
    requires k' != k
    ensures Lookup(Put(es, k, v), k') == Lookup(es, k')
  {
    if |es| > 0 && es[0].name != k {
      PutKeepsOthers(es[1..], k, v, k');
      assert Put(es, k, v)[1..] == Put(es[1..], k, v);
    }
  }

  /** A `put` never creates a duplicate key. */
  lemma {:induction false} PutKeepsDistinct(es: seq<Entry>, k: Text, v: Text)
    requires DistinctNames(es)
    ensures DistinctNames(Put(es, k, v))
  {
    if |es| > 0 && es[0].name == k {
      var r := Put(es, k, v);
      forall i, j | 0 <= i < j < |r|
        ensures r[i].name != r[j].name
      {
        assert r[j] == es[j];
        assert r[i].name == es[i].name;
      }
    } else if |es| > 0 {
      var p := Put(es[1..], k, v);
      var r := [es[0]] + p;
      PutKeepsDistinct(es[1..], k, v);
      PutNames(es[1..], k, v);
      NamesAt(p);
      assert es[0].name !in Names(es[1..]) by {
        NamesAt(es[1..]);
      }
      forall i, j | 0 <= i < j < |r|
        ensures r[i].name != r[j].name
      {
        assert r[j] == p[j - 1];
        assert p[j - 1].name in Names(p);
      }
    }
  }

  /** `new ChunkHelper(prefix)`. */
  function New(prefix: Text): (h: ChunkHelper)
    ensures h.prefix == prefix && h.nextId == 0 && h.lookups == []
    ensures Numbered(h)
  {
    ChunkHelper(prefix, 0, [])
  }

  /** `getStaticMemVarPrefix()`: the text every name the helper hands out starts with. */
  function StaticMemVarPrefix(h: ChunkHelper): (p: Text)
    ensures p <= NextMemVarId(h).0
  {
    h.prefix
  }

  /**
   `getLookups()`: the mappings in insertion order. In the state the generator
   keeps the helper in, they form a map: no key occurs twice.
   */
  function GetLookups(h: ChunkHelper): (es: seq<Entry>)
    ensures |es| == |h.lookups|
    ensures Numbered(h) ==> DistinctNames(es) && h.prefix + Decimal(h.nextId) !in Names(es)
  {
    if Numbered(h) then NumberedNamesDistinct(h); h.lookups else h.lookups
  }

  /** `getNextMemVarId()`: the name for the current counter value, and the helper with the counter advanced. */
  function NextMemVarId(h: ChunkHelper): (res: (Text, ChunkHelper))
    ensures res.0 == h.prefix + Decimal(h.nextId)
    ensures res.1.nextId == h.nextId + 1
    ensures res.1.prefix == h.prefix && res.1.lookups == h.lookups
  {
    (h.prefix + Decimal(h.nextId), h.(nextId := h.nextId + 1))
  }

  /** `register(id, quotedText)`: a `put` on the lookups; prefix and counter are untouched. */
  function Register(h: ChunkHelper, id: Text, quotedText: Text): (h': ChunkHelper)
    ensures h'.prefix == h.prefix && h'.nextId == h.nextId
    ensures h'.lookups == Put(h.lookups, id, quotedText)
    ensures Lookup(h'.lookups, id) == Some(quotedText)
  {
    h.(lookups := Put(h.lookups, id, quotedText))
  }

  /** The names `prefix + from`, `prefix + (from + 1)`, ... : `n` of them, as the counter hands them out. */
  function IdRange(prefix: Text, from: nat, n: nat): (ids: seq<Text>)
    ensures |ids| == n
  {
    if n == 0 then [] else IdRange(prefix, from, n - 1) + [prefix + Decimal(from + n - 1)]
  }

  lemma {:induction false} IdRangeAt(prefix: Text, from: nat, n: nat)
    ensures forall i :: 0 <= i < n ==> IdRange(prefix, from, n)[i] == prefix + Decimal(from + i)
  {
    if n > 0 {
      IdRangeAt(prefix, from, n - 1);
    }
  }

  /** One more name at the end of a run: the one for counter value `from + n`. */
  lemma IdRangeSnoc(prefix: Text, from: nat, n: nat, k: nat)
    requires k == from + n
    ensures IdRange(prefix, from, n + 1) == IdRange(prefix, from, n) + [prefix + Decimal(k)]
  {
  }

  lemma {:induction false} NamesSnoc(es: seq<Entry>, e: Entry)
    ensures Names(es + [e]) == Names(es) + [e.name]
  {
    if |es| > 0 {
      NamesSnoc(es[1..], e);
      assert (es + [e])[1..] == es[1..] + [e];
    }
  }

  /**
   The state a helper is in whenever the generator looks at it: every name
   handed out so far was registered once, in order, so the keys are
   `prefix + 0`, `prefix + 1`, ... up to the counter.
   */
  predicate Numbered(h: ChunkHelper) {
    Names(h.lookups) == IdRange(h.prefix, 0, h.nextId)
  }

  /** Names handed out from the counter are never reused within a run. */
  lemma {:induction false} NumberedNamesDistinct(h: ChunkHelper)
    requires Numbered(h)
    ensures DistinctNames(h.lookups)
    ensures h.prefix + Decimal(h.nextId) !in Names(h.lookups)
  {
    NamesAt(h.lookups);
    IdRangeAt(h.prefix, 0, h.nextId);
    forall i, j | 0 <= i < j < |h.lookups|
      ensures h.lookups[i].name != h.lookups[j].name
    {
      DecimalInjective(h.prefix, i, j);
    }
    forall i | 0 <= i < |h.lookups|
      ensures Names(h.lookups)[i] != h.prefix + Decimal(h.nextId)
    {
      DecimalInjective(h.prefix, i, h.nextId);
    }
  }

  /** Taking a fresh name and registering a literal under it appends one entry and stays `Numbered`. */
  lemma NextAndRegister(h: ChunkHelper, literal: Text)
    requires Numbered(h)
    ensures Register(NextMemVarId(h).1, NextMemVarId(h).0, literal).lookups
         == h.lookups + [Entry(NextMemVarId(h).0, literal)]
    ensures Numbered(Register(NextMemVarId(h).1, NextMemVarId(h).0, literal))
  {
    NumberedNamesDistinct(h);
    NamesSnoc(h.lookups, Entry(NextMemVarId(h).0, literal));
  }

  /** Names handed out `k` calls apart differ: consecutive calls on one helper never repeat a name. */
  lemma {:induction false} SuccessiveIds(h: ChunkHelper, k: nat)
    ensures var (id, h1) := NextMemVarId(h);
      && NextMemVarId(IterateNext(h1, k)).0 == h.prefix + Decimal(h.nextId + k + 1)
      && NextMemVarId(IterateNext(h1, k)).0 != id
  {
    IterateNextCounter(NextMemVarId(h).1, k);
    DecimalInjective(h.prefix, h.nextId, h.nextId + k + 1);
  }

  /** The helper after `k` more calls to `getNextMemVarId`. */
  function IterateNext(h: ChunkHelper, k: nat): ChunkHelper
    decreases k
  {
    if k == 0 then h else IterateNext(NextMemVarId(h).1, k - 1)
  }

  /** Each call advances the counter by exactly one and touches nothing else. */
  lemma {:induction false} IterateNextCounter(h: ChunkHelper, k: nat)
    ensures IterateNext(h, k) == h.(nextId := h.nextId + k)
    decreases k
  {
    if k > 0 {
      IterateNextCounter(NextMemVarId(h).1, k - 1);
    }
  }

  /** On a new helper the `k`-th call (counting from zero) returns `prefix + k`. */
  lemma KthIdOnNewHelper(prefix: Text, k: nat)
    ensures NextMemVarId(IterateNext(New(prefix), k)).0 == prefix + Decimal(k)
  {
    IterateNextCounter(New(prefix), k);
  }

  /** A call a client makes on a helper: `getNextMemVarId()` or `register(id, quotedText)`. */
  datatype Call = GetNextMemVarId | RegisterCall(id: Text, quotedText: Text)

  /** The helper after one call; the name `getNextMemVarId` returns is dropped here. */
  function Step(h: ChunkHelper, c: Call): ChunkHelper {
    match c
    case GetNextMemVarId => NextMemVarId(h).1
    case RegisterCall(id, t) => Register(h, id, t)
  }

  /** The helper after a run of calls, first call first. */
  function Run(h: ChunkHelper, calls: seq<Call>): ChunkHelper
    decreases |calls|
  {
    if |calls| == 0 then h else Run(Step(h, calls[0]), calls[1..])
  }

  /** How many of the calls are `getNextMemVarId`. */
  function CountNext(calls: seq<Call>): nat {
    if |calls| == 0 then 0 else (if calls[0].GetNextMemVarId? then 1 else 0) + CountNext(calls[1..])
  }

  /**
   Whatever a client calls, the prefix stays the one it started with and the
   counter moves only by `getNextMemVarId`, one step per call.
   */
  lemma {:induction false} RunKeepsPrefix(h: ChunkHelper, calls: seq<Call>)
    ensures StaticMemVarPrefix(Run(h, calls)) == StaticMemVarPrefix(h)
    ensures Run(h, calls).nextId == h.nextId + CountNext(calls)
    decreases |calls|
  {
    if |calls| > 0 {
      RunKeepsPrefix(Step(h, calls[0]), calls[1..]);
    }
  }

  /** `getStaticMemVarPrefix()` returns the constructor's argument after any run of calls on a new helper. */
  lemma {:induction false} PrefixFromConstructor(prefix: Text, calls: seq<Call>)
    ensures StaticMemVarPrefix(Run(New(prefix), calls)) == prefix
    ensures GetLookups(New(prefix)) == []
  {
    RunKeepsPrefix(New(prefix), calls);
  }
}
