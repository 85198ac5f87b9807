/** The pending-read queue of the XENHID function driver: a cancel-safe queue
    (IO_CSQ) of IOCTL_HID_READ_REPORT requests kept in `Fdo->List`, filled by
    FdoDispatchInternal and drained by FdoHidCallback when the backend
    delivers an input report. */
module ReadQueue {
  import opened Kernel

  /** Identifies one read request (an IRP). */
  type ReqId = nat

  /** What has become of a read request: still queued (with the size of its
      output buffer), or completed with an IoStatus block and the bytes copied
      into its buffer. */
  datatype Outcome =
    | Queued(capacity: nat)
    | Completed(status: Status, information: nat, data: seq<byte>)

  /** The list of queued requests, head first, and the outcome of every
      request the queue has seen. */
  datatype Queue = Queue(list: seq<ReqId>, outcomes: map<ReqId, Outcome>)

  predicate Distinct(s: seq<ReqId>) {
    forall i, j :: 0 <= i < j < |s| ==> s[i] != s[j]
  }

  /** A request is in the list exactly when its outcome is still "queued":
      completing a request unlinks it, and no request is linked twice. */
  predicate Wf(q: Queue) {
    && Distinct(q.list)
    && (forall id :: id in q.list ==> id in q.outcomes && q.outcomes[id].Queued?)
    && (forall id :: id in q.outcomes && q.outcomes[id].Queued? ==> id in q.list)
  }

  function Empty(): (q: Queue)
    ensures Wf(q) && q.list == []
  {
    Queue([], map[])
  }

  /** Position of a request in the list. */
  function IndexOf(s: seq<ReqId>, x: ReqId): (i: nat)
    requires x in s
    ensures i < |s| && s[i] == x && x !in s[..i]
  {
    if s[0] == x then 0
    else
      assert s == [s[0]] + s[1..];
      1 + IndexOf(s[1..], x)
  }

  /** RemoveEntryList: the list with the entry of `x` unlinked. */
  function Unlinked(s: seq<ReqId>, x: ReqId): (r: seq<ReqId>)
    requires x in s
  {
    s[..IndexOf(s, x)] + s[IndexOf(s, x) + 1..]
  }

  /** In a list without duplicates, unlinking one entry removes exactly that
      request and keeps every other request, in the same relative order. */
  lemma UnlinkedKeepsOrder(s: seq<ReqId>, x: ReqId)
    requires x in s && Distinct(s)
    ensures Distinct(Unlinked(s, x))
    ensures multiset(Unlinked(s, x)) == multiset(s) - multiset{x}
    ensures x !in Unlinked(s, x)
    ensures forall a, b :: 0 <= a < b < |Unlinked(s, x)| ==>
              IndexOf(s, Unlinked(s, x)[a]) < IndexOf(s, Unlinked(s, x)[b])
  {
    UnlinkedMultiset(s, x);
    UnlinkedPositions(s, x);
    var r := Unlinked(s, x);
    assert x !in r by {
      forall a | 0 <= a < |r| ensures r[a] != x {
        assert IndexOf(s, r[a]) != IndexOf(s, x);
      }
    }
  }

  lemma UnlinkedMultiset(s: seq<ReqId>, x: ReqId)
    requires x in s
    ensures multiset(Unlinked(s, x)) == multiset(s) - multiset{x}
  {
    var i := IndexOf(s, x);
    assert s == s[..i] + [x] + s[i + 1..];
    assert multiset(s) == multiset(s[..i]) + multiset{x} + multiset(s[i + 1..]);
  }

  /** Every request left after unlinking sits where it sat before, or one
      place earlier when it came after the unlinked entry. */
  lemma UnlinkedPositions(s: seq<ReqId>, x: ReqId)
    requires x in s && Distinct(s)
    ensures |Unlinked(s, x)| == |s| - 1
    ensures forall a :: 0 <= a < |Unlinked(s, x)| ==>
              IndexOf(s, Unlinked(s, x)[a]) == if a < IndexOf(s, x) then a else a + 1
  {
    var i := IndexOf(s, x);
    var r := Unlinked(s, x);
    forall a | 0 <= a < |r|
      ensures IndexOf(s, r[a]) == if a < i then a else a + 1
    {
      var p := if a < i then a else a + 1;
      assert r[a] == s[p];
      DistinctIndex(s, p);
    }
  }

  /** In a list without duplicates the position of an element is the index it sits at. */
  lemma {:induction false} DistinctIndex(s: seq<ReqId>, p: nat)
    requires Distinct(s) && p < |s|
    ensures IndexOf(s, s[p]) == p
  {
    if s[0] != s[p] {
      assert s[1..][p - 1] == s[p];
      DistinctIndex(s[1..], p - 1);
    }
  }

  // ---------------------------------------------------------------- the CSQ operations, as values

  /** FdoCsqPeekNextIrp: with no request given, the head of the list; with a
      queued request given, the one linked after it; None at the end. */
  function PeekNext(q: Queue, irp: Option<ReqId>): (r: Option<ReqId>)
    requires irp.Some? ==> irp.value in q.list
  {
    if irp.None? then (if q.list == [] then None else Some(q.list[0]))
    else if IndexOf(q.list, irp.value) + 1 < |q.list| then Some(q.list[IndexOf(q.list, irp.value) + 1])
    else None
  }

  /** Peeking walks the list in order: starting from "no request" and following
      each answer visits every queued request, head first. */
  lemma PeekNextWalksList(q: Queue, k: nat)
    requires Wf(q) && k <= |q.list|
    ensures PeekNext(q, if k == 0 then None else Some(q.list[k - 1])) ==
            if k < |q.list| then Some(q.list[k]) else None
  {
    if k > 0 {
      DistinctIndex(q.list, k - 1);
    }
  }

  /** IoCsqInsertIrp with FdoCsqInsertIrp: a new read joins the tail. */
  function Enqueued(q: Queue, id: ReqId, capacity: nat): (r: Queue)
    requires Wf(q) && id !in q.list
    ensures Wf(r)
    ensures r.list == q.list + [id] && id in r.outcomes && r.outcomes[id] == Queued(capacity)
    ensures forall other :: other != id ==> (other in r.outcomes <==> other in q.outcomes)
    ensures forall other :: other != id && other in q.outcomes ==> r.outcomes[other] == q.outcomes[other]
  {
    Queue(q.list + [id], q.outcomes[id := Queued(capacity)])
  }

  /** FdoHidCallback: IoCsqRemoveNextIrp takes the head of the list, `Length`
      bytes of the report are copied to its buffer, and it completes with
      STATUS_SUCCESS and Information = Length. The second component is the
      BOOLEAN the callback returns. */
  function Delivered(q: Queue, report: seq<byte>): (Queue, bool)
  {
    if q.list == [] then (q, false)
    else (Queue(q.list[1..], q.outcomes[q.list[0] := Completed(Success, |report|, report)]), true)
  }

  /** IoCsq's cancel path: a request still queued is unlinked by
      FdoCsqRemoveIrp and completed by FdoCsqCompleteCanceledIrp with
      STATUS_DEVICE_NOT_READY and Information = 0; any other request is left
      alone. */
  function Cancelled(q: Queue, id: ReqId): Queue
  {
    if id in q.list then Queue(Unlinked(q.list, id), q.outcomes[id := Completed(DeviceNotReady, 0, [])])
    else q
  }

  // ---------------------------------------------------------------- properties

  /** On an empty queue the callback returns FALSE and changes nothing. */
  lemma DeliveredOnEmpty(q: Queue, report: seq<byte>)
    requires q.list == []
    ensures Delivered(q, report) == (q, false)
  {
  }

  /** On a non-empty queue the callback completes the oldest queued read (which
      had not been completed before) with STATUS_SUCCESS and the whole report,
      whatever the size of the read's buffer, returns TRUE, keeps the other
      reads in order, and preserves the queue invariant. */
  lemma {:induction false} DeliveredCompletesOldest(q: Queue, report: seq<byte>)
    requires Wf(q) && q.list != []
    ensures var (r, completed) := Delivered(q, report);
            && completed
            && q.outcomes[q.list[0]].Queued?
            && r.list == q.list[1..]
            && r.outcomes[q.list[0]] == Completed(Success, |report|, report)
            && r.outcomes.Keys == q.outcomes.Keys
            && (forall id :: id in q.outcomes && id != q.list[0] ==> r.outcomes[id] == q.outcomes[id])
            && Wf(r)
  {
    var r := Delivered(q, report).0;
    var head := q.list[0];
    assert q.list == [head] + q.list[1..];
    forall id | id in r.list
      ensures id in r.outcomes && r.outcomes[id].Queued?
    {
      assert id in q.list && id != head;
    }
  }

  /** A cancelled queued read is unlinked and completed with
      STATUS_DEVICE_NOT_READY and no data; every other read keeps its outcome
      and the remaining reads keep their relative order. Cancelling a read
      that is no longer queued changes nothing. */
  lemma CancelledUnlinks(q: Queue, id: ReqId)
    requires Wf(q)
    ensures var r := Cancelled(q, id);
            && Wf(r)
            && (id in q.list ==>
                  && r.outcomes[id] == Completed(DeviceNotReady, 0, [])
                  && multiset(r.list) == multiset(q.list) - multiset{id}
                  && (forall a, b :: 0 <= a < b < |r.list| ==>
                        IndexOf(q.list, r.list[a]) < IndexOf(q.list, r.list[b])))
            && (id !in q.list ==> r == q)
            && r.outcomes.Keys == q.outcomes.Keys
            && (forall other :: other in q.outcomes && other != id ==> r.outcomes[other] == q.outcomes[other])
  {
    if id in q.list {
      UnlinkedKeepsOrder(q.list, id);
      CancelledWf(q, id);
    }
  }

  /** Cancelling a queued read keeps the queue invariant. */
  lemma CancelledWf(q: Queue, id: ReqId)
    requires Wf(q) && id in q.list
    ensures Wf(Cancelled(q, id))
  {
    UnlinkedKeepsOrder(q.list, id);
    var r := Cancelled(q, id);
    forall other | other in r.list
      ensures other in r.outcomes && r.outcomes[other].Queued?
    {
      assert other in multiset(r.list);
      assert other in q.list;
    }
    forall other | other in r.outcomes && r.outcomes[other].Queued?
      ensures other in r.list
    {
      assert other in q.list && other != id;
      assert other in multiset(q.list) - multiset{id};
    }
  }

  /** Things that happen to the queue: a read arrives, the backend delivers a
      report, or the I/O manager cancels a read. */
  datatype Event = Arrive(id: ReqId, capacity: nat) | Report(data: seq<byte>) | Cancel(id: ReqId)

  /** The event queues request `id` again. */
  predicate Requeues(e: Event, id: ReqId) {
    e.Arrive? && e.id == id
  }

  /** An event can happen: only a request not already queued can be queued. */
  predicate Allowed(q: Queue, e: Event) {
    e.Arrive? ==> e.id !in q.list
  }

  function Step(q: Queue, e: Event): (r: Queue)
    requires Wf(q) && Allowed(q, e)
    ensures Wf(r)
  {
    match e
    case Arrive(id, capacity) => Enqueued(q, id, capacity)
    case Report(data) =>
      if q.list == [] then q else DeliveredCompletesOldest(q, data); Delivered(q, data).0
    case Cancel(id) => CancelledUnlinks(q, id); Cancelled(q, id)
  }

  /** Runs a sequence of events; None once one is not allowed. */
  function Run(q: Queue, events: seq<Event>): (r: Option<Queue>)
    requires Wf(q)
    ensures r.Some? ==> Wf(r.value)
    decreases |events|
  {
    if events == [] then Some(q)
    else if !Allowed(q, events[0]) then None
    else Run(Step(q, events[0]), events[1..])
  }

  /** No read is completed twice: once completed, an outcome stays as it is
      through any run of events that does not queue that request again. */
  lemma {:induction false} CompletionIsFinal(q: Queue, events: seq<Event>, id: ReqId)
    requires Wf(q) && id in q.outcomes && q.outcomes[id].Completed?
    requires forall k :: 0 <= k < |events| ==> !Requeues(events[k], id)
    requires Run(q, events).Some?
    ensures id in Run(q, events).value.outcomes
    ensures Run(q, events).value.outcomes[id] == q.outcomes[id]
    decreases |events|
  {
    if events != [] {
      var q' := Step(q, events[0]);
      assert id !in q.list;
      var e := events[0];
      if e.Arrive? {
        assert !Requeues(e, id);
      } else if e.Report? {
        if q.list != [] {
          DeliveredCompletesOldest(q, e.data);
        }
      } else {
        CancelledUnlinks(q, e.id);
      }
      assert id in q'.outcomes && q'.outcomes[id] == q.outcomes[id];
      forall k | 0 <= k < |events[1..]|
        ensures !Requeues(events[1..][k], id)
      {
        assert events[1..][k] == events[k + 1];
      }
      CompletionIsFinal(q', events[1..], id);
    }
  }

  /** Queues every id in order. */
  function EnqueuedAll(q: Queue, ids: seq<ReqId>, capacity: nat): (r: Queue)
    requires Wf(q) && Distinct(ids) && forall id :: id in ids ==> id !in q.list
    ensures Wf(r) && r.list == q.list + ids
    decreases |ids|
  {
    if ids == [] then q
    else
      var q' := Enqueued(q, ids[0], capacity);
      assert forall id :: id in ids[1..] ==> id !in q'.list by {
        forall id | id in ids[1..] ensures id !in q'.list {
          var k := IndexOf(ids[1..], id);
          assert ids[k + 1] == id && ids[0] != ids[k + 1];
        }
      }
      var r := EnqueuedAll(q', ids[1..], capacity);
      assert q.list + ids == q'.list + ids[1..];
      r
  }

  /** Delivers each report in turn; returns the queue and the requests each
      delivery completed, in order. */
  function DeliveredAll(q: Queue, reports: seq<seq<byte>>): (r: (Queue, seq<ReqId>))
    requires Wf(q)
    ensures Wf(r.0)
    decreases |reports|
  {
    if reports == [] then (q, [])
    else
      var (q', completed) := Delivered(q, reports[0]);
      if !completed then DeliveredAll(q', reports[1..])
      else
        DeliveredCompletesOldest(q, reports[0]);
        var (r, rest) := DeliveredAll(q', reports[1..]);
        (r, [q.list[0]] + rest)
  }

  /** Reads are served in arrival order: n deliveries complete the n oldest
      queued reads (all of them, when fewer are queued), the k-th delivered
      report going to the k-th oldest read, and leave the rest queued in order. */
  lemma {:induction false} DeliveredAllInOrder(q: Queue, reports: seq<seq<byte>>)
    requires Wf(q)
    ensures var n := if |reports| < |q.list| then |reports| else |q.list|;
            var (r, served) := DeliveredAll(q, reports);
            && served == q.list[..n]
            && r.list == q.list[n..]
            && (forall k :: 0 <= k < n ==>
                  q.list[k] in r.outcomes && r.outcomes[q.list[k]] == Completed(Success, |reports[k]|, reports[k]))
    decreases |reports|
  {
    if reports != [] {
      var (q', completed) := Delivered(q, reports[0]);
      if !completed {
        DeliveredAllInOrder(q', reports[1..]);
      } else {
        DeliveredCompletesOldest(q, reports[0]);
        DeliveredAllInOrder(q', reports[1..]);
        var (r, rest) := DeliveredAll(q', reports[1..]);
        var n := if |reports| < |q.list| then |reports| else |q.list|;
        assert q'.list == q.list[1..];
        assert q.list[..n] == [q.list[0]] + q.list[1..][..n - 1];
        forall k | 0 <= k < n
          ensures q.list[k] in r.outcomes && r.outcomes[q.list[k]] == Completed(Success, |reports[k]|, reports[k])
        {
          if k == 0 {
            assert q.list[0] !in q'.list;
            CompletionIsFinalAfterDeliveries(q', reports[1..], q.list[0]);
          } else {
            assert q.list[k] == q'.list[k - 1] && reports[k] == reports[1..][k - 1];
          }
        }
      }
    }
  }

  /** A completed read keeps its outcome through later deliveries. */
  lemma {:induction false} CompletionIsFinalAfterDeliveries(q: Queue, reports: seq<seq<byte>>, id: ReqId)
    requires Wf(q) && id in q.outcomes && q.outcomes[id].Completed?
    ensures id in DeliveredAll(q, reports).0.outcomes
    ensures DeliveredAll(q, reports).0.outcomes[id] == q.outcomes[id]
    decreases |reports|
  {
    if reports != [] {
      var (q', completed) := Delivered(q, reports[0]);
      if completed {
        DeliveredCompletesOldest(q, reports[0]);
        assert id != q.list[0];
      }
      CompletionIsFinalAfterDeliveries(q', reports[1..], id);
    }
  }

  /** First in, first out: reads queued on an empty queue are completed in
      the order they arrived, the k-th report going to the k-th read. */
  lemma ReadsServedInArrivalOrder(ids: seq<ReqId>, capacity: nat, reports: seq<seq<byte>>)
    requires Distinct(ids) && |reports| <= |ids|
    ensures var (r, served) := DeliveredAll(EnqueuedAll(Empty(), ids, capacity), reports);
            && served == ids[..|reports|]
            && r.list == ids[|reports|..]
            && (forall k :: 0 <= k < |reports| ==>
                  ids[k] in r.outcomes && r.outcomes[ids[k]] == Completed(Success, |reports[k]|, reports[k]))
  {
    var q := EnqueuedAll(Empty(), ids, capacity);
    assert q.list == ids;
    DeliveredAllInOrder(q, reports);
  }

  // ---------------------------------------------------------------- the queue object

  /** The IO_CSQ together with `Fdo->List`: the callbacks the driver registers
      with IoCsqInitialize, plus the two IoCsq entry points it uses. */
  class PendingReads {
    var list: seq<ReqId>
    var outcomes: map<ReqId, Outcome>

    function Model(): Queue
      reads this
    {
      Queue(list, outcomes)
    }

    predicate Valid()
      reads this
    {
      Wf(Model())
    }

    /** InitializeListHead: an empty list. */
    constructor ()
      ensures Valid() && Model() == Empty()
    {
      list := [];
      outcomes := map[];
    }

    /** FdoCsqInsertIrp (with IoCsqInsertIrp recording the read as pending). */
    method InsertIrp(id: ReqId, capacity: nat)
      requires Valid() && id !in list
      modifies this
      ensures Valid() && Model() == Enqueued(old(Model()), id, capacity)
    {
      list := list + [id];
      outcomes := outcomes[id := Queued(capacity)];
    }

    /** FdoCsqPeekNextIrp, over the list as it stands. */
    function PeekNextIrp(irp: Option<ReqId>): (r: Option<ReqId>)
      reads this
      requires irp.Some? ==> irp.value in list
      ensures r.Some? ==> r.value in list
    {
      PeekNext(Model(), irp)
    }

    /** FdoCsqRemoveIrp: RemoveEntryList on the request's entry. */
    method RemoveIrp(id: ReqId)
      requires id in list
      modifies this
      ensures list == Unlinked(old(list), id) && outcomes == old(outcomes)
    {
      var i := IndexOf(list, id);
      list := list[..i] + list[i + 1..];
    }

    /** IoCompleteRequest on a request that has left the list. */
    method CompleteRequest(id: ReqId, status: Status, information: nat, data: seq<byte>)
      modifies this
      ensures list == old(list) && outcomes == old(outcomes)[id := Completed(status, information, data)]
    {
      outcomes := outcomes[id := Completed(status, information, data)];
    }

    /** FdoCsqCompleteCanceledIrp. */
    method CompleteCanceledIrp(id: ReqId)
      modifies this
      ensures list == old(list) && outcomes == old(outcomes)[id := Completed(DeviceNotReady, 0, [])]
    {
      CompleteRequest(id, DeviceNotReady, 0, []);
    }

    /** IoCsqRemoveNextIrp(Queue, NULL): peek at the head and unlink it. */
    method RemoveNextIrp() returns (irp: Option<ReqId>)
      requires Valid()
      modifies this
      ensures irp == PeekNext(old(Model()), None)
      ensures irp.None? ==> list == old(list)
      ensures irp.Some? ==> list == old(list)[1..]
      ensures outcomes == old(outcomes)
    {
      irp := PeekNextIrp(None);
      if irp.Some? {
        RemoveIrp(irp.value);
        assert IndexOf(old(list), irp.value) == 0;
      }
    }

    /** The cancel routine IoCsq installs: a request still in the list is
      removed and completed as cancelled. */
    method CancelIrp(id: ReqId)
      requires Valid()
      modifies this
      ensures Valid() && Model() == Cancelled(old(Model()), id)
    {
      CancelledUnlinks(Model(), id);
      if id in list {
        RemoveIrp(id);
        CompleteCanceledIrp(id);
      }
    }

    /** FdoHidCallback: complete the oldest pending read with the report; the
      copy is not checked against the read's buffer size. */
    method HidCallback(report: seq<byte>) returns (completed: bool)
      requires Valid()
      modifies this
      ensures Valid() && (Model(), completed) == Delivered(old(Model()), report)
    {
      var irp := RemoveNextIrp();
      if irp.None? {
        return false;
      }
      CompleteRequest(irp.value, Success, |report|, report);
      DeliveredCompletesOldest(old(Model()), report);
      return true;
    }

    /** RtlZeroMemory of the queue and list in FdoDestroy: the list is dropped
      and the requests in it are never completed. */
    method Reset()
      modifies this
      ensures list == [] && outcomes == old(outcomes)
    {
      list := [];
    }
  }
}
