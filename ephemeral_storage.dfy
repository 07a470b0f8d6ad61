/**
 * The in-memory stores: an append-only event log per aggregate id with an
 * optimistic version check, and a cache of the latest projection per id with
 * a monotonic last-writer-wins merge.
 *
 * Each store is a class holding its map; its methods are proved against the
 * pure functions Append and Merge, and the store properties are lemmas about
 * those functions.
 */
module EphemeralStorage {
  import opened EventSourcing

  // ---------------------------------------------------------------------------
  // Event store

  type Log<E> = map<string, seq<Event<E>>>

  datatype StoreOutcome =
    | Appended
    | ConcurrencyError
      /** Reading the version of the last event of an empty log (only AppendAsWritten). */
    | EmptyLogFault

  datatype AppendResult<E> = AppendResult(log: Log<E>, outcome: StoreOutcome)

  /** The stored events of an id; the empty sequence when there are none. */
  function LogOf<E>(m: Log<E>, id: string): seq<Event<E>>
  {
    if id in m then m[id] else []
  }

  /** The version of the last stored event; 0 for an empty log. */
  function LastVersion<E>(evts: seq<Event<E>>): int
  {
    if |evts| == 0 then 0 else evts[|evts| - 1].version
  }

  /** Appends events one at a time; stops at the first version mismatch, keeping what it appended. */
  function Append<E>(m: Log<E>, es: seq<Event<E>>): AppendResult<E>
    decreases |es|
  {
    if |es| == 0 then AppendResult(m, Appended)
    else
      var ev := es[0];
      var evts := LogOf(m, ev.id);
      if ev.version != LastVersion(evts) + 1 then AppendResult(m, ConcurrencyError)
      else Append(m[ev.id := evts + [ev]], es[1..])
  }

  /** Every event of every log has its log's id and the version of its position, from 1. */
  ghost predicate Contiguous<E>(m: Log<E>)
  {
    forall id, k :: id in m && 0 <= k < |m[id]| ==> m[id][k].id == id && m[id][k].version == k + 1
  }

  class EventStore<E> {
    var store: Log<E>

    constructor ()
      ensures store == map[]
    {
      store := map[];
    }

    method GetById(id: string) returns (events: seq<Event<E>>)
      ensures events == LogOf(store, id)
    {
      events := if id in store then store[id] else [];
    }

    method AddEvents(newEvents: seq<Event<E>>) returns (outcome: StoreOutcome)
      modifies this
      ensures AppendResult(store, outcome) == Append(old(store), newEvents)
      ensures Contiguous(old(store)) ==> Contiguous(store)
    {
      AppendKeepsContiguous(store, newEvents);
      var i := 0;
      while i < |newEvents|
        invariant 0 <= i <= |newEvents|
        invariant Append(old(store), newEvents) == Append(store, newEvents[i..])
      {
        var ev := newEvents[i];
        var evts := if ev.id in store then store[ev.id] else [];
        var last := if |evts| == 0 then 0 else evts[|evts| - 1].version;
        if ev.version != last + 1 {
          return ConcurrencyError;
        }
        evts := evts + [ev];
        store := store[ev.id := evts];
        assert newEvents[i..][1..] == newEvents[i + 1..];
        i := i + 1;
      }
      return Appended;
    }
  }

  /** Appending a + b is appending a, then, if that succeeded, appending b. */
  lemma {:induction false} AppendConcat<E>(m: Log<E>, a: seq<Event<E>>, b: seq<Event<E>>)
    ensures Append(m, a + b) ==
      var ra := Append(m, a);
      if ra.outcome == Appended then Append(ra.log, b) else ra
    decreases |a|
  {
    if |a| == 0 {
      assert a + b == b;
    } else {
      var ev := a[0];
      assert (a + b)[0] == ev;
      assert (a + b)[1..] == a[1..] + b;
      if ev.version == LastVersion(LogOf(m, ev.id)) + 1 {
        AppendConcat(m[ev.id := LogOf(m, ev.id) + [ev]], a[1..], b);
      }
    }
  }

  /** One event is appended exactly when its version is the next one of its id's log. */
  lemma AppendOne<E>(m: Log<E>, ev: Event<E>)
    ensures Append(m, [ev]) ==
      if ev.version == LastVersion(LogOf(m, ev.id)) + 1
      then AppendResult(m[ev.id := LogOf(m, ev.id) + [ev]], Appended)
      else AppendResult(m, ConcurrencyError)
  {
    assert [ev][1..] == [];
  }

  /** Append-only: every old log is a prefix of the new one. */
  lemma {:induction false} AppendOnly<E>(m: Log<E>, es: seq<Event<E>>, id: string)
    ensures var m' := Append(m, es).log;
      |LogOf(m, id)| <= |LogOf(m', id)| && LogOf(m', id)[..|LogOf(m, id)|] == LogOf(m, id)
      && (id in m ==> id in m')
    decreases |es|
  {
    if |es| > 0 {
      var ev := es[0];
      var evts := LogOf(m, ev.id);
      if ev.version == LastVersion(evts) + 1 {
        var m1 := m[ev.id := evts + [ev]];
        AppendOnly(m1, es[1..], id);
        if id == ev.id {
          assert LogOf(m1, id)[..|LogOf(m, id)|] == LogOf(m, id);
        }
      }
    }
  }

  /** The logs of ids that no event of the batch names are unchanged. */
  lemma {:induction false} AppendUntouched<E>(m: Log<E>, es: seq<Event<E>>, id: string)
    requires forall j :: 0 <= j < |es| ==> es[j].id != id
    ensures var m' := Append(m, es).log;
      (id in m' <==> id in m) && LogOf(m', id) == LogOf(m, id)
    decreases |es|
  {
    if |es| > 0 {
      var ev := es[0];
      if ev.version == LastVersion(LogOf(m, ev.id)) + 1 {
        AppendUntouched(m[ev.id := LogOf(m, ev.id) + [ev]], es[1..], id);
      }
    }
  }

  /** A batch for one id carrying versions last+1, last+2, ... is appended whole and in order. */
  lemma {:induction false} AppendContiguousBatch<E>(m: Log<E>, es: seq<Event<E>>, id: string)
    requires forall j :: 0 <= j < |es| ==> es[j].id == id && es[j].version == LastVersion(LogOf(m, id)) + j + 1
    ensures Append(m, es).outcome == Appended
    ensures LogOf(Append(m, es).log, id) == LogOf(m, id) + es
    decreases |es|
  {
    if |es| == 0 {
      assert LogOf(m, id) + es == LogOf(m, id);
    } else {
      var ev := es[0];
      var m1 := m[id := LogOf(m, id) + [ev]];
      assert LastVersion(LogOf(m1, id)) == ev.version;
      AppendContiguousBatch(m1, es[1..], id);
      assert LogOf(m, id) + es == (LogOf(m, id) + [ev]) + es[1..];
    }
  }

  /**
   * Non-atomic: when event k mismatches after events 0..k-1 were appended,
   * those stay appended and the events after k are not attempted.
   */
  lemma StopsAtFirstMismatch<E>(m: Log<E>, es: seq<Event<E>>, k: int)
    requires 0 <= k < |es|
    requires Append(m, es[..k]).outcome == Appended
    requires es[k].version != LastVersion(LogOf(Append(m, es[..k]).log, es[k].id)) + 1
    ensures Append(m, es) == AppendResult(Append(m, es[..k]).log, ConcurrencyError)
  {
    assert es == es[..k] + es[k..];
    AppendConcat(m, es[..k], es[k..]);
  }

  /** Appending keeps every log contiguous from version 1. */
  lemma {:induction false} AppendKeepsContiguous<E>(m: Log<E>, es: seq<Event<E>>)
    ensures Contiguous(m) ==> Contiguous(Append(m, es).log)
    decreases |es|
  {
    if |es| > 0 && Contiguous(m) {
      var ev := es[0];
      var evts := LogOf(m, ev.id);
      if ev.version == LastVersion(evts) + 1 {
        var m1 := m[ev.id := evts + [ev]];
        assert LastVersion(evts) == |evts|;
        assert Contiguous(m1);
        AppendKeepsContiguous(m1, es[1..]);
      }
    }
  }

  /**
   * Two writers racing for the same next version of one id: after the first
   * appends, the second gets a concurrency error and the log keeps the first.
   */
  lemma SecondWriterConflicts<E>(m: Log<E>, e1: Event<E>, e2: Event<E>)
    requires Append(m, [e1]).outcome == Appended
    requires e2.id == e1.id && e2.version == e1.version
    ensures var m1 := Append(m, [e1]).log;
      && Append(m1, [e2]) == AppendResult(m1, ConcurrencyError)
      && LogOf(m1, e1.id) == LogOf(m, e1.id) + [e1]
  {
    AppendOne(m, e1);
    AppendOne(Append(m, [e1]).log, e2);
  }

  /**
   * The store's code as written: the version of the last event is read even
   * from an empty log, which faults; events appended before the fault stay.
   */
  function AppendAsWritten<E>(m: Log<E>, es: seq<Event<E>>): AppendResult<E>
    decreases |es|
  {
    if |es| == 0 then AppendResult(m, Appended)
    else
      var ev := es[0];
      var evts := LogOf(m, ev.id);
      if |evts| == 0 then AppendResult(m, EmptyLogFault)
      else if ev.version != evts[|evts| - 1].version + 1 then AppendResult(m, ConcurrencyError)
      else AppendAsWritten(m[ev.id := evts + [ev]], es[1..])
  }

  /** As written, no event can ever be stored for a new id: its first append faults. */
  lemma AsWrittenFirstAppendFaults<E>(m: Log<E>, ev: Event<E>)
    requires ev.id !in m && ev.version == 1
    ensures AppendAsWritten(m, [ev]) == AppendResult(m, EmptyLogFault)
    ensures Append(m, [ev]) == AppendResult(m[ev.id := [ev]], Appended)
  {
    AppendOne(m, ev);
    assert LogOf(m, ev.id) + [ev] == [ev];
  }

  /** Where every named log is already non-empty, the code as written and Append agree. */
  lemma {:induction false} AsWrittenAgreesOnNonEmptyLogs<E>(m: Log<E>, es: seq<Event<E>>)
    requires forall j :: 0 <= j < |es| ==> LogOf(m, es[j].id) != []
    ensures AppendAsWritten(m, es) == Append(m, es)
    decreases |es|
  {
    if |es| > 0 {
      var ev := es[0];
      var evts := LogOf(m, ev.id);
      if ev.version == LastVersion(evts) + 1 {
        var m1 := m[ev.id := evts + [ev]];
        forall j | 0 <= j < |es[1..]| ensures LogOf(m1, es[1..][j].id) != [] {
          assert es[1..][j] == es[j + 1];
        }
        AsWrittenAgreesOnNonEmptyLogs(m1, es[1..]);
      }
    }
  }

  // ---------------------------------------------------------------------------
  // Read model store

  /** Replaces the stored projection only when none exists or the stored one is older. */
  function Merge<S>(m: map<string, ReadModel<S>>, item: Option<ReadModel<S>>): map<string, ReadModel<S>>
  {
    match item
    case None => m
    case Some(x) =>
      if x.id !in m || m[x.id].version < x.version then m[x.id := x] else m
  }

  class ReadModelStore<S> {
    var store: map<string, ReadModel<S>>

    constructor ()
      ensures store == map[]
    {
      store := map[];
    }

    method GetById(id: string) returns (item: Option<ReadModel<S>>)
      ensures item.Some? <==> id in store
      ensures item.Some? ==> item.value == store[id]
    {
      item := if id in store then Some(store[id]) else None;
    }

    method Store(item: Option<ReadModel<S>>)
      modifies this
      ensures store == Merge(old(store), item)
    {
      if item.None? {
        return;
      }
      var x := item.value;
      var existing := if x.id in store then Some(store[x.id]) else None;
      if existing.None? || existing.value.version < x.version {
        store := store[x.id := x];
      }
    }
  }

  /** An absent item changes nothing. */
  lemma MergeNoneIsNoop<S>(m: map<string, ReadModel<S>>)
    ensures Merge(m, None) == m
  {
  }

  /** The projection is stored exactly when none exists or the stored version is smaller. */
  lemma MergeReplacesIff<S>(m: map<string, ReadModel<S>>, x: ReadModel<S>)
    ensures Merge(m, Some(x)) == m[x.id := x] <==> x.id !in m || m[x.id].version < x.version || m[x.id] == x
    ensures x.id in m && x.version <= m[x.id].version ==> Merge(m, Some(x)) == m
  {
    if x.id in m && x.version <= m[x.id].version && m[x.id] != x {
      assert Merge(m, Some(x))[x.id] != x;
    }
  }

  /** Stored versions never decrease, and no id is ever dropped. */
  lemma MergeMonotonic<S>(m: map<string, ReadModel<S>>, item: Option<ReadModel<S>>)
    ensures forall id :: id in m ==> id in Merge(m, item) && m[id].version <= Merge(m, item)[id].version
  {
  }

  /** Storing the same item a second time changes nothing. */
  lemma MergeIdempotent<S>(m: map<string, ReadModel<S>>, item: Option<ReadModel<S>>)
    ensures Merge(Merge(m, item), item) == Merge(m, item)
  {
  }

  /** Other ids are untouched. */
  lemma MergeOtherIds<S>(m: map<string, ReadModel<S>>, item: Option<ReadModel<S>>, id: string)
    requires item.None? || item.value.id != id
    ensures (id in Merge(m, item) <==> id in m)
    ensures id in m ==> Merge(m, item)[id] == m[id]
  {
  }

  /** Two projections whose versions differ end up the same whichever is stored first. */
  lemma MergeCommutes<S>(m: map<string, ReadModel<S>>, x: ReadModel<S>, y: ReadModel<S>)
    requires x.id != y.id || x.version != y.version
    ensures Merge(Merge(m, Some(x)), Some(y)) == Merge(Merge(m, Some(y)), Some(x))
  {
  }
}
