/**
 * The `weekEvents` dictionary: date key to the records filed under it, in
 * the order they were pushed.
 */
module Buckets {
  import opened Events

  type WeekMap = map<string, seq<Record>>

  /** The records under `key`; an absent key reads as the empty list. */
  function Lookup(m: WeekMap, key: string): seq<Record> {
    if key in m then m[key] else []
  }

  /**
   * One push: the record goes to the end of its key's list, which is created
   * empty first when absent; every other key keeps its list.
   */
  function AddEntry(m: WeekMap, e: Entry): (r: WeekMap)
    ensures r.Keys == m.Keys + {e.key}
    ensures Lookup(r, e.key) == Lookup(m, e.key) + [e.record]
    ensures forall k :: k != e.key ==> Lookup(r, k) == Lookup(m, k)
  {
    m[e.key := Lookup(m, e.key) + [e.record]]
  }

  /** The entries pushed one after another. */
  function AddAll(m: WeekMap, es: seq<Entry>): WeekMap {
    if es == [] then m else AddEntry(AddAll(m, es[..|es| - 1]), es[|es| - 1])
  }

  /** The records of the entries filed under `key`, in order. */
  function RecordsUnder(es: seq<Entry>, key: string): seq<Record> {
    if es == [] then []
    else RecordsUnder(es[..|es| - 1], key) + (if es[|es| - 1].key == key then [es[|es| - 1].record] else [])
  }

  function KeysOf(es: seq<Entry>): set<string> {
    set e | e in es :: e.key
  }

  lemma {:induction false} RecordsUnderEmpty(es: seq<Entry>, key: string)
    ensures RecordsUnder(es, key) == [] <==> key !in KeysOf(es)
  {
    if es != [] {
      var init := es[..|es| - 1];
      RecordsUnderEmpty(init, key);
      assert es == init + [es[|es| - 1]];
      assert KeysOf(es) == KeysOf(init) + {es[|es| - 1].key};
    }
  }

  /** Under each key, the pushes leave the old list followed by the new records for that key, in push order. */
  lemma {:induction false} AddAllAt(m: WeekMap, es: seq<Entry>, key: string)
    ensures Lookup(AddAll(m, es), key) == Lookup(m, key) + RecordsUnder(es, key)
  {
    if es != [] {
      AddAllAt(m, es[..|es| - 1], key);
    }
  }

  /** The pushes add exactly the keys of the pushed entries. */
  lemma {:induction false} AddAllKeys(m: WeekMap, es: seq<Entry>)
    ensures AddAll(m, es).Keys == m.Keys + KeysOf(es)
  {
    if es != [] {
      var init := es[..|es| - 1];
      AddAllKeys(m, init);
      assert es == init + [es[|es| - 1]];
      assert KeysOf(es) == KeysOf(init) + {es[|es| - 1].key};
    }
  }

  /** Pushing one more entry after a run of entries. */
  lemma AddAllSnoc(m: WeekMap, es: seq<Entry>, e: Entry)
    ensures AddAll(m, es + [e]) == AddEntry(AddAll(m, es), e)
  {
    assert (es + [e])[..|es|] == es;
  }

  lemma {:induction false} AddAllConcat(m: WeekMap, a: seq<Entry>, b: seq<Entry>)
    ensures AddAll(m, a + b) == AddAll(AddAll(m, a), b)
  {
    if b != [] {
      AddAllConcat(m, a, b[..|b| - 1]);
      assert (a + b)[..|a + b| - 1] == a + b[..|b| - 1];
    } else {
      assert a + b == a;
    }
  }

  /** Every list in the dictionary holds at least one record. */
  predicate NoEmptyBucket(m: WeekMap) {
    forall k :: k in m ==> |m[k]| > 0
  }

  lemma {:induction false} AddAllNoEmptyBucket(m: WeekMap, es: seq<Entry>)
    requires NoEmptyBucket(m)
    ensures NoEmptyBucket(AddAll(m, es))
  {
    if es != [] {
      AddAllNoEmptyBucket(m, es[..|es| - 1]);
    }
  }

  /** `weekEvents` once every event of the feed has been processed. */
  function WeekEventsOf(evs: seq<VEvent>, loc: Locale): WeekMap {
    AddAll(map[], AllEntries(evs, loc))
  }

  /**
   * The list under a key is every record filed under it, across all events
   * in feed order; the key is present exactly when some record is filed
   * under it.
   */
  lemma WeekEventsAt(evs: seq<VEvent>, loc: Locale, key: string)
    ensures Lookup(WeekEventsOf(evs, loc), key) == RecordsUnder(AllEntries(evs, loc), key)
    ensures key in WeekEventsOf(evs, loc) <==> key in KeysOf(AllEntries(evs, loc))
    ensures NoEmptyBucket(WeekEventsOf(evs, loc))
  {
    AddAllAt(map[], AllEntries(evs, loc), key);
    AddAllKeys(map[], AllEntries(evs, loc));
    AddAllNoEmptyBucket(map[], AllEntries(evs, loc));
  }

  lemma AllEntriesSnoc(evs: seq<VEvent>, ev: VEvent, loc: Locale)
    ensures AllEntries(evs + [ev], loc) == AllEntries(evs, loc) + EventEntries(ev, loc)
  {
    assert (evs + [ev])[..|evs|] == evs;
  }

  /** The `weekEvents` object itself, filled in place. */
  class WeekEvents {
    var buckets: WeekMap

    constructor ()
      ensures buckets == map[]
    {
      buckets := map[];
    }

    /** Files the entry's record under its key, creating the key's empty list first when it is absent. */
    method Push(e: Entry)
      modifies this
      ensures buckets == AddEntry(old(buckets), e)
      ensures Lookup(buckets, e.key) == Lookup(old(buckets), e.key) + [e.record]
      ensures forall k :: k != e.key ==> Lookup(buckets, k) == Lookup(old(buckets), k)
    {
      if e.key !in buckets {
        buckets := buckets[e.key := []];
      }
      buckets := buckets[e.key := buckets[e.key] + [e.record]];
    }
  }
}
