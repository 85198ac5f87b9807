/** The XENBUS and XENHID services the function driver holds while the
    device is in D0, and the calls it makes on them. A call log is replayed
    over the set of held resources to state what a sequence of calls leaves
    held, and whether it ever releases something not held or out of order. */
module Services {
  import opened Kernel

  /** What a successful call acquires: a store session, a suspend session,
      the late suspend callback (which needs the suspend session), a HID
      session, and the HID report callback (which needs the HID session). */
  datatype Resource = StoreSession | SuspendSession | SuspendCallback | HidSession | HidEnabled

  /** The service calls FdoD3ToD0 and FdoD0ToD3 make. */
  datatype Call =
    | StoreAcquire | StoreRelease
    | SuspendAcquire | SuspendRelease
    | SuspendRegister | SuspendDeregister
    | HidAcquire | HidRelease
    | HidEnable | HidDisable
  {
    predicate IsAcquire() {
      StoreAcquire? || SuspendAcquire? || SuspendRegister? || HidAcquire? || HidEnable?
    }

    function Target(): Resource {
      match this
      case StoreAcquire => StoreSession
      case StoreRelease => StoreSession
      case SuspendAcquire => SuspendSession
      case SuspendRelease => SuspendSession
      case SuspendRegister => SuspendCallback
      case SuspendDeregister => SuspendCallback
      case HidAcquire => HidSession
      case HidRelease => HidSession
      case HidEnable => HidEnabled
      case HidDisable => HidEnabled
    }
  }

  /** The call that undoes a call: each release for its acquire and back. */
  function Undo(c: Call): (u: Call)
    ensures u.Target() == c.Target() && u.IsAcquire() == !c.IsAcquire()
  {
    match c
    case StoreAcquire => StoreRelease
    case StoreRelease => StoreAcquire
    case SuspendAcquire => SuspendRelease
    case SuspendRelease => SuspendAcquire
    case SuspendRegister => SuspendDeregister
    case SuspendDeregister => SuspendRegister
    case HidAcquire => HidRelease
    case HidRelease => HidAcquire
    case HidEnable => HidDisable
    case HidDisable => HidEnable
  }

  /** A callback registration lives inside its session. */
  function Parent(r: Resource): Option<Resource> {
    match r
    case SuspendCallback => Some(SuspendSession)
    case HidEnabled => Some(HidSession)
    case _ => None
  }

  /** Every held callback's session is held too. */
  predicate Closed(held: set<Resource>) {
    forall r :: r in held && Parent(r).Some? ==> Parent(r).value in held
  }

  /** One call on the held set: an acquire needs its resource not held and its
      session held; a release needs its resource held and no callback still
      registered in it. None when the call is out of protocol. */
  function Apply(held: set<Resource>, c: Call): Option<set<Resource>> {
    var r := c.Target();
    if c.IsAcquire() then
      if r in held || (Parent(r).Some? && Parent(r).value !in held) then None
      else Some(held + {r})
    else
      if r !in held || (exists d :: d in held && Parent(d) == Some(r)) then None
      else Some(held - {r})
  }

  /** Replays a call log from a held set, front to back. */
  function Replay(held: set<Resource>, calls: seq<Call>): Option<set<Resource>>
    decreases |calls|
  {
    if calls == [] then Some(held)
    else
      match Apply(held, calls[0])
      case None => None
      case Some(next) => Replay(next, calls[1..])
  }

  /** The undoing calls, last call first: what a goto ladder runs. */
  function Rollback(calls: seq<Call>): (r: seq<Call>)
    ensures |r| == |calls|
    ensures forall i :: 0 <= i < |calls| ==> r[i] == Undo(calls[|calls| - 1 - i])
    decreases |calls|
  {
    if calls == [] then [] else [Undo(calls[|calls| - 1])] + Rollback(calls[..|calls| - 1])
  }

  /** A protocol-respecting call keeps the held set closed. */
  lemma ApplyKeepsClosed(held: set<Resource>, c: Call)
    requires Closed(held) && Apply(held, c).Some?
    ensures Closed(Apply(held, c).value)
  {
    var r := c.Target();
    var next := Apply(held, c).value;
    if !c.IsAcquire() {
      forall d | d in next && Parent(d).Some?
        ensures Parent(d).value in next
      {
        assert d in held;
        assert Parent(d).value != r;
      }
    }
  }

  /** Replaying two logs one after the other is replaying their concatenation. */
  lemma {:induction false} ReplayAppend(held: set<Resource>, a: seq<Call>, b: seq<Call>)
    ensures Replay(held, a + b) ==
            match Replay(held, a)
            case None => None
            case Some(mid) => Replay(mid, b)
    decreases |a|
  {
    if a == [] {
      assert a + b == b;
    } else {
      assert (a + b)[0] == a[0] && (a + b)[1..] == a[1..] + b;
      var step := Apply(held, a[0]);
      if step.Some? {
        ReplayAppend(step.value, a[1..], b);
      }
    }
  }

  /** A single call is undone by its undoing call. */
  lemma UndoRestores(held: set<Resource>, c: Call)
    requires Closed(held) && Apply(held, c).Some?
    ensures Apply(Apply(held, c).value, Undo(c)) == Some(held)
  {
    var r := c.Target();
    var next := Apply(held, c).value;
    if c.IsAcquire() {
      assert r !in held;
      assert next - {r} == held;
      forall d | d in next
        ensures Parent(d) != Some(r)
      {
        assert d == r || d in held;
      }
    } else {
      assert next + {r} == held;
      if Parent(r).Some? {
        assert Parent(r).value in held && Parent(r).value != r;
      }
    }
  }

  /** Every log that keeps to the protocol is undone by its rollback: from
      where the log ends, the rollback runs without a protocol error and
      returns exactly to the held set the log started from. */
  lemma {:induction false} RollbackUndoes(held: set<Resource>, calls: seq<Call>)
    requires Closed(held) && Replay(held, calls).Some?
    ensures Replay(Replay(held, calls).value, Rollback(calls)) == Some(held)
    decreases |calls|
  {
    if calls != [] {
      var next := Apply(held, calls[0]).value;
      ApplyKeepsClosed(held, calls[0]);
      RollbackUndoes(next, calls[1..]);
      var rest := Rollback(calls[1..]);
      RollbackCons(calls);
      ReplayAppend(Replay(held, calls).value, rest, [Undo(calls[0])]);
      UndoRestores(held, calls[0]);
    }
  }

  /** Rolling back c followed by the rest undoes the rest first, then c. */
  lemma {:induction false} RollbackCons(calls: seq<Call>)
    requires calls != []
    ensures Rollback(calls) == Rollback(calls[1..]) + [Undo(calls[0])]
  {
    var r := Rollback(calls);
    var s := Rollback(calls[1..]) + [Undo(calls[0])];
    assert |r| == |s|;
    forall i | 0 <= i < |r|
      ensures r[i] == s[i]
    {
      if i < |calls| - 1 {
        assert calls[1..][|calls| - 2 - i] == calls[|calls| - 1 - i];
      }
    }
  }

  // ---------------------------------------------------------------- the ladder of FdoD3ToD0

  /** The five steps of FdoD3ToD0, in order: store acquire, suspend acquire,
      the suspend-callback registration inside FdoSetDistribution, HID
      acquire, HID enable. */
  const AcquireSteps: seq<Call> := [StoreAcquire, SuspendAcquire, SuspendRegister, HidAcquire, HidEnable]

  /** Everything held while the device is enabled. */
  const AllHeld: set<Resource> := {StoreSession, SuspendSession, SuspendCallback, HidSession, HidEnabled}

  /** What the first k steps hold. */
  function HeldAfter(k: nat): set<Resource>
    requires k <= |AcquireSteps|
  {
    set i | 0 <= i < k :: AcquireSteps[i].Target()
  }

  /** The first k steps keep to the protocol from nothing held and hold
      exactly what they acquired; all five hold every resource. */
  lemma {:induction false} StepsAcquire(k: nat)
    requires k <= |AcquireSteps|
    ensures Replay({}, AcquireSteps[..k]) == Some(HeldAfter(k))
    ensures k == |AcquireSteps| ==> HeldAfter(k) == AllHeld
  {
    if k == 0 {
      assert AcquireSteps[..0] == [];
      assert HeldAfter(0) == {};
    } else {
      StepsAcquire(k - 1);
      NextStepAcquires(k);
    }
    if k == |AcquireSteps| {
      AllStepsHoldAll();
    }
  }

  /** Step k (1-based) acquires a resource not yet held whose parent the
      previous step acquired. */
  lemma NextStepAcquires(k: nat)
    requires 1 <= k <= |AcquireSteps|
    requires Replay({}, AcquireSteps[..k - 1]) == Some(HeldAfter(k - 1))
    ensures Replay({}, AcquireSteps[..k]) == Some(HeldAfter(k))
  {
    ReplayAppend({}, AcquireSteps[..k - 1], [AcquireSteps[k - 1]]);
    assert AcquireSteps[..k] == AcquireSteps[..k - 1] + [AcquireSteps[k - 1]];
    var c := AcquireSteps[k - 1];
    assert HeldAfter(k) == HeldAfter(k - 1) + {c.Target()};
    assert forall i :: 0 <= i < k - 1 ==> AcquireSteps[i].Target() != c.Target();
    assert c.Target() !in HeldAfter(k - 1);
    if Parent(c.Target()).Some? {
      assert Parent(c.Target()).value == AcquireSteps[k - 2].Target();
      assert Parent(c.Target()).value in HeldAfter(k - 1);
    }
    assert Apply(HeldAfter(k - 1), c) == Some(HeldAfter(k));
    assert Replay(HeldAfter(k - 1), [c]) == Some(HeldAfter(k));
  }

  /** The five steps together acquire every resource. */
  lemma AllStepsHoldAll()
    ensures HeldAfter(|AcquireSteps|) == AllHeld
  {
    assert AcquireSteps[0].Target() == StoreSession;
    assert AcquireSteps[1].Target() == SuspendSession;
    assert AcquireSteps[2].Target() == SuspendCallback;
    assert AcquireSteps[3].Target() == HidSession;
    assert AcquireSteps[4].Target() == HidEnabled;
  }

  /** The log of FdoD3ToD0 when step k (1-based) fails: the k-1 steps that
      succeeded, then the ladder's undoing calls in reverse order. */
  function FailedLadder(k: nat): seq<Call>
    requires 1 <= k <= |AcquireSteps|
  {
    AcquireSteps[..k - 1] + Rollback(AcquireSteps[..k - 1])
  }

  /** A failed FdoD3ToD0 leaks nothing: whichever step fails, the log keeps to
      the protocol and ends holding nothing. */
  lemma FailedLadderLeaksNothing(k: nat)
    requires 1 <= k <= |AcquireSteps|
    ensures Replay({}, FailedLadder(k)) == Some({})
  {
    StepsAcquire(k - 1);
    ReplayAppend({}, AcquireSteps[..k - 1], Rollback(AcquireSteps[..k - 1]));
    RollbackUndoes({}, AcquireSteps[..k - 1]);
  }

  /** The undoing calls of the ladder, written out: HID disable, HID release,
      suspend deregister, suspend release, store release. FdoD0ToD3 makes
      exactly these calls, and when step k fails the ladder runs their last
      k-1. */
  lemma RollbackOfSteps(k: nat)
    requires 1 <= k <= |AcquireSteps|
    ensures Rollback(AcquireSteps) == [HidDisable, HidRelease, SuspendDeregister, SuspendRelease, StoreRelease]
    ensures Rollback(AcquireSteps[..k - 1]) == Rollback(AcquireSteps)[|AcquireSteps| - k + 1..]
  {
    var full := Rollback(AcquireSteps);
    var part := Rollback(AcquireSteps[..k - 1]);
    assert |part| == k - 1;
    forall i | 0 <= i < k - 1
      ensures part[i] == full[|AcquireSteps| - k + 1 + i]
    {
      assert AcquireSteps[..k - 1][k - 2 - i] == AcquireSteps[k - 2 - i];
    }
  }

  /** A successful FdoD3ToD0 holds everything, and FdoD0ToD3 from there
      releases everything, in an order that keeps to the protocol. */
  lemma PowerCycleLeaksNothing()
    ensures Replay({}, AcquireSteps) == Some(AllHeld)
    ensures Replay(AllHeld, Rollback(AcquireSteps)) == Some({})
  {
    StepsAcquire(|AcquireSteps|);
    assert AcquireSteps[..|AcquireSteps|] == AcquireSteps;
    RollbackUndoes({}, AcquireSteps);
  }

  /** The order matters: releasing the suspend session while the callback is
      still registered in it breaks the protocol. */
  lemma ReleaseOrderMatters()
    ensures Replay(AllHeld, [SuspendRelease]) == None
  {
    assert SuspendCallback in AllHeld && Parent(SuspendCallback) == Some(SuspendSession);
  }
}
