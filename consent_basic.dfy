/** The ConsentBasic registry: per address, a consent flag and two independent
    request counters, each kept in its own contract mapping. Every entry point is
    self-service (it acts on the caller's own entry) and emits one event. */
module Basic {
  import opened Storage

  /** The two kinds of request a user can file; each has its own counter. */
  datatype RequestKind = Access | Deletion

  /** The events the contract emits. A request event carries the caller's new count. */
  datatype Event =
    | ConsentUpdated(user: Address, consent: bool)
    | AccessRequested(user: Address, count: nat)
    | DeletionRequested(user: Address, count: nat)
  {
    /** The kind of a request event. */
    function Kind(): RequestKind
      requires !ConsentUpdated?
    {
      if AccessRequested? then Access else Deletion
    }

    /** True of a request event of `kind` filed by `a`. */
    predicate IsRequest(kind: RequestKind, a: Address) {
      !ConsentUpdated? && Kind() == kind && user == a
    }
  }

  /** The event a request of `kind` by `user` emits when it brings the count to `n`. */
  function RequestEvent(kind: RequestKind, user: Address, n: nat): Event {
    match kind
    case Access => AccessRequested(user, n)
    case Deletion => DeletionRequested(user, n)
  }

  /** The consent of `a` as a reader of the event log sees it: the value of the
      last ConsentUpdated event for `a`, or false when there is none. */
  function LastConsent(log: seq<Event>, a: Address): bool {
    if log == [] then false
    else
      var e := log[|log| - 1];
      if e.ConsentUpdated? && e.user == a then e.consent else LastConsent(log[..|log| - 1], a)
  }

  /** The number of requests of `kind` that `a` has filed according to the log. */
  function Tally(log: seq<Event>, a: Address, kind: RequestKind): nat {
    if log == [] then 0
    else (if log[0].IsRequest(kind, a) then 1 else 0) + Tally(log[1..], a, kind)
  }

  /** Appending one event adds one to exactly the tally it is a request of. */
  lemma {:induction false} TallyAppend(log: seq<Event>, e: Event, a: Address, kind: RequestKind)
    ensures Tally(log + [e], a, kind) == Tally(log, a, kind) + (if e.IsRequest(kind, a) then 1 else 0)
  {
    if log != [] {
      assert (log + [e])[1..] == log[1..] + [e];
      TallyAppend(log[1..], e, a, kind);
    }
  }

  /** Every request event in the log carries its user's running total of
      requests of its kind, counting that event itself. */
  ghost predicate Numbered(log: seq<Event>) {
    forall i :: 0 <= i < |log| && !log[i].ConsentUpdated? ==>
      log[i].count == Tally(log[..i + 1], log[i].user, log[i].Kind())
  }

  /** A log stays numbered when the appended event is a consent update, or a
      request that carries one more than its user's tally so far. */
  lemma NumberedAppend(log: seq<Event>, e: Event)
    requires Numbered(log)
    requires !e.ConsentUpdated? ==> e.count == Tally(log, e.user, e.Kind()) + 1
    ensures Numbered(log + [e])
  {
    var log' := log + [e];
    forall i | 0 <= i < |log'| && !log'[i].ConsentUpdated?
      ensures log'[i].count == Tally(log'[..i + 1], log'[i].user, log'[i].Kind())
    {
      if i < |log| {
        assert log'[..i + 1] == log[..i + 1];
      } else {
        assert log'[..i + 1] == log + [e];
        TallyAppend(log, e, e.user, e.Kind());
      }
    }
  }

  class ConsentBasic {
    var consent: map<Address, bool>
    var accessRequests: map<Address, nat>
    var deletionRequests: map<Address, nat>
    /** The contract's event log, which the contract only appends to. */
    var log: seq<Event>

    /** The stored state is what replaying the log gives, and the log is numbered. */
    ghost predicate Valid()
      reads this
    {
      (forall a :: Lookup(consent, a, false) == LastConsent(log, a))
      && (forall a :: Lookup(accessRequests, a, 0) == Tally(log, a, Access))
      && (forall a :: Lookup(deletionRequests, a, 0) == Tally(log, a, Deletion))
      && Numbered(log)
    }

    /** Deployment: nothing stored, nothing logged. */
    constructor ()
      ensures Valid()
      ensures consent == map[] && accessRequests == map[] && deletionRequests == map[] && log == []
      ensures forall a :: !HasConsented(a) && AccessRequestCount(a) == 0 && DeletionRequestCount(a) == 0
    {
      consent, accessRequests, deletionRequests, log := map[], map[], map[], [];
    }

    function HasConsented(a: Address): (r: bool)
      reads this
      requires Valid()
      ensures r == LastConsent(log, a)
    {
      Lookup(consent, a, false)
    }

    function AccessRequestCount(a: Address): (r: nat)
      reads this
      requires Valid()
      ensures r == Tally(log, a, Access)
    {
      Lookup(accessRequests, a, 0)
    }

    function DeletionRequestCount(a: Address): (r: nat)
      reads this
      requires Valid()
      ensures r == Tally(log, a, Deletion)
    {
      Lookup(deletionRequests, a, 0)
    }

    /** The counter for requests of `kind`. */
    function RequestCount(kind: RequestKind, a: Address): (r: nat)
      reads this
      requires Valid()
      ensures r == Tally(log, a, kind)
    {
      match kind
      case Access => AccessRequestCount(a)
      case Deletion => DeletionRequestCount(a)
    }

    method GiveConsent(caller: Address)
      requires Valid()
      modifies this
      ensures Valid()
      ensures consent == old(consent)[caller := true]
      ensures accessRequests == old(accessRequests) && deletionRequests == old(deletionRequests)
      ensures log == old(log) + [ConsentUpdated(caller, true)]
      ensures HasConsented(caller)
    {
      SetConsent(caller, true);
    }

    method RevokeConsent(caller: Address)
      requires Valid()
      modifies this
      ensures Valid()
      ensures consent == old(consent)[caller := false]
      ensures accessRequests == old(accessRequests) && deletionRequests == old(deletionRequests)
      ensures log == old(log) + [ConsentUpdated(caller, false)]
      ensures !HasConsented(caller)
    {
      SetConsent(caller, false);
    }

    /** The shared body of GiveConsent and RevokeConsent. */
    method SetConsent(caller: Address, value: bool)
      requires Valid()
      modifies this
      ensures Valid()
      ensures consent == old(consent)[caller := value]
      ensures accessRequests == old(accessRequests) && deletionRequests == old(deletionRequests)
      ensures log == old(log) + [ConsentUpdated(caller, value)]
    {
      var e := ConsentUpdated(caller, value);
      consent := consent[caller := value];
      forall a, kind ensures Tally(log + [e], a, kind) == Tally(log, a, kind) {
        TallyAppend(log, e, a, kind);
      }
      assert forall a :: LastConsent(log + [e], a) == Lookup(consent, a, false) by {
        assert (log + [e])[..|log|] == log;
      }
      NumberedAppend(log, e);
      log := log + [e];
    }

    method RequestDataAccess(caller: Address)
      requires Valid()
      modifies this
      ensures Valid()
      ensures accessRequests == old(accessRequests)[caller := old(AccessRequestCount(caller)) + 1]
      ensures consent == old(consent) && deletionRequests == old(deletionRequests)
      ensures log == old(log) + [AccessRequested(caller, old(AccessRequestCount(caller)) + 1)]
      ensures AccessRequestCount(caller) == old(AccessRequestCount(caller)) + 1
    {
      var n := AccessRequestCount(caller) + 1;
      var e := AccessRequested(caller, n);
      accessRequests := accessRequests[caller := n];
      AppendRequest(e);
    }

    method RequestDeletion(caller: Address)
      requires Valid()
      modifies this
      ensures Valid()
      ensures deletionRequests == old(deletionRequests)[caller := old(DeletionRequestCount(caller)) + 1]
      ensures consent == old(consent) && accessRequests == old(accessRequests)
      ensures log == old(log) + [DeletionRequested(caller, old(DeletionRequestCount(caller)) + 1)]
      ensures DeletionRequestCount(caller) == old(DeletionRequestCount(caller)) + 1
    {
      var n := DeletionRequestCount(caller) + 1;
      var e := DeletionRequested(caller, n);
      deletionRequests := deletionRequests[caller := n];
      AppendRequest(e);
    }

    /** Logs request `e` once its counter has already been raised to `e.count`. */
    method AppendRequest(e: Event)
      requires !e.ConsentUpdated?
      requires Numbered(log) && e.count == Tally(log, e.user, e.Kind()) + 1
      requires forall a :: Lookup(consent, a, false) == LastConsent(log, a)
      requires forall a, kind :: Lookup(if kind == Access then accessRequests else deletionRequests, a, 0)
                 == Tally(log, a, kind) + (if e.IsRequest(kind, a) then 1 else 0)
      modifies this
      ensures Valid()
      ensures consent == old(consent) && accessRequests == old(accessRequests)
      ensures deletionRequests == old(deletionRequests)
      ensures log == old(log) + [e]
    {
      forall a, kind
        ensures Tally(log + [e], a, kind) == Tally(log, a, kind) + (if e.IsRequest(kind, a) then 1 else 0)
      {
        TallyAppend(log, e, a, kind);
      }
      assert forall a :: LastConsent(log + [e], a) == LastConsent(log, a) by {
        assert (log + [e])[..|log|] == log;
      }
      NumberedAppend(log, e);
      log := log + [e];
      assert forall a :: Lookup(accessRequests, a, 0) == Tally(log, a, Access) by {
        forall a ensures Lookup(accessRequests, a, 0) == Tally(log, a, Access) {
          assert Lookup(if Access == Access then accessRequests else deletionRequests, a, 0)
            == Tally(old(log), a, Access) + (if e.IsRequest(Access, a) then 1 else 0);
        }
      }
      assert forall a :: Lookup(deletionRequests, a, 0) == Tally(log, a, Deletion) by {
        forall a ensures Lookup(deletionRequests, a, 0) == Tally(log, a, Deletion) {
          assert Lookup(if Deletion == Access then accessRequests else deletionRequests, a, 0)
            == Tally(old(log), a, Deletion) + (if e.IsRequest(Deletion, a) then 1 else 0);
        }
      }
    }
  }

  /** Request `kind` as the contract entry point for it runs it. */
  method Request(r: ConsentBasic, kind: RequestKind, caller: Address)
    requires r.Valid()
    modifies r
    ensures r.Valid()
    ensures r.consent == old(r.consent)
    ensures r.RequestCount(kind, caller) == old(r.RequestCount(kind, caller)) + 1
    ensures forall a, k :: (a, k) != (caller, kind) ==> r.RequestCount(k, a) == old(r.RequestCount(k, a))
    ensures r.log == old(r.log) + [RequestEvent(kind, caller, r.RequestCount(kind, caller))]
  {
    match kind
    case Access => r.RequestDataAccess(caller);
    case Deletion => r.RequestDeletion(caller);
  }

  /** `k` successive requests of one kind by one user on a fresh registry: the
      counter reads `k`, and the i-th request (from 1) emitted the count i. */
  method RepeatedRequests(kind: RequestKind, user: Address, k: nat) returns (count: nat, events: seq<Event>)
    ensures count == k
    ensures |events| == k
    ensures forall i :: 0 <= i < k ==> events[i] == RequestEvent(kind, user, i + 1)
  {
    var r := new ConsentBasic();
    var i := 0;
    while i < k
      invariant 0 <= i <= k
      invariant r.Valid()
      invariant r.RequestCount(kind, user) == i
      invariant |r.log| == i
      invariant forall j :: 0 <= j < i ==> r.log[j] == RequestEvent(kind, user, j + 1)
    {
      Request(r, kind, user);
      i := i + 1;
    }
    count, events := r.RequestCount(kind, user), r.log;
  }

  /** Two users manage consent independently: both give consent, then the
      first revokes, and only the first one's flag drops. */
  method IndependentConsent(u1: Address, u2: Address) returns (consent1: bool, consent2: bool)
    requires u1 != u2
    ensures !consent1 && consent2
  {
    var r := new ConsentBasic();
    r.GiveConsent(u1);
    r.GiveConsent(u2);
    r.RevokeConsent(u1);
    consent1, consent2 := r.HasConsented(u1), r.HasConsented(u2);
  }

  /** Counters are per user: two requests by `u1` and one by `u2` read back as 2 and 1. */
  method RequestsPerUser(kind: RequestKind, u1: Address, u2: Address) returns (count1: nat, count2: nat)
    requires u1 != u2
    ensures count1 == 2 && count2 == 1
  {
    var r := new ConsentBasic();
    Request(r, kind, u1);
    Request(r, kind, u1);
    Request(r, kind, u2);
    count1, count2 := r.RequestCount(kind, u1), r.RequestCount(kind, u2);
  }

  /** The full workflow of one user: consent, two access requests, one deletion
      request, revocation; revoking leaves both counters as they were. */
  method CompleteWorkflow(user: Address) returns (consented: bool, access: nat, deletion: nat)
    ensures !consented && access == 2 && deletion == 1
  {
    var r := new ConsentBasic();
    r.GiveConsent(user);
    r.RequestDataAccess(user);
    r.RequestDataAccess(user);
    r.RequestDeletion(user);
    r.RevokeConsent(user);
    consented, access, deletion := r.HasConsented(user), r.AccessRequestCount(user), r.DeletionRequestCount(user);
  }
}
