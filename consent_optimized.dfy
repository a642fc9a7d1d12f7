/** The ConsentOptimized registry: per address, one packed record holding the
    consent flag and both request counters. Consent is self-service; access and
    deletion are recorded in batches, by any caller, over a list of addresses
    that is walked in order with repeats counted, and each batch emits a single
    aggregate event. */
module Optimized {
  import opened Storage

  /** The packed per-user record, read back whole by GetUserState. */
  datatype UserState = UserState(consent: bool, accessCount: nat, deletionCount: nat)
  {
    /** This record after `n` more access requests. */
    function AddAccess(n: nat): UserState {
      this.(accessCount := accessCount + n)
    }

    /** This record after `n` more deletion requests. */
    function AddDeletion(n: nat): UserState {
      this.(deletionCount := deletionCount + n)
    }
  }

  /** The record of an address that was never written. */
  const Unset := UserState(false, 0, 0)

  /** The events the contract emits. A batch event names the caller that ran the
      batch and the length of its list, not the addresses in it. */
  datatype Event =
    | ConsentUpdated(user: Address, consent: bool)
    | AccessBatch(operator: Address, count: nat)
    | DeletionBatch(operator: Address, count: nat)

  /** The consent of `a` as a reader of the event log sees it: the value of the
      last ConsentUpdated event for `a`, or false when there is none. The same
      replay as `Basic.LastConsent`, restated over this registry's own event type. */
  function LastConsent(log: seq<Event>, a: Address): bool {
    if log == [] then false
    else
      var e := log[|log| - 1];
      if e.ConsentUpdated? && e.user == a then e.consent else LastConsent(log[..|log| - 1], a)
  }

  class ConsentOptimized {
    var users: map<Address, UserState>
    /** The contract's event log, which the contract only appends to. */
    var log: seq<Event>

    /** Every stored consent flag is what replaying the log's consent updates gives.
        One address's counters cannot be replayed: batch events do not list their
        addresses, only how many there were. */
    ghost predicate Valid()
      reads this
    {
      forall a {:trigger Lookup(users, a, Unset)} :: Lookup(users, a, Unset).consent == LastConsent(log, a)
    }

    /** Deployment: nothing stored, nothing logged. */
    constructor ()
      ensures Valid()
      ensures users == map[] && log == []
      ensures forall a {:trigger GetUserState(a)} :: GetUserState(a) == UserState(false, 0, 0)
    {
      users, log := map[], [];
    }

    function GetUserState(a: Address): (r: UserState)
      reads this
      requires Valid()
      ensures r.consent == LastConsent(log, a)
    {
      Lookup(users, a, Unset)
    }

    /** Sets the consent field of the caller's own record, and no other field. */
    method SetConsent(caller: Address, value: bool)
      requires Valid()
      modifies this
      ensures Valid()
      ensures users == old(users)[caller := old(GetUserState(caller)).(consent := value)]
      ensures log == old(log) + [ConsentUpdated(caller, value)]
      ensures GetUserState(caller) == old(GetUserState(caller)).(consent := value)
    {
      var e := ConsentUpdated(caller, value);
      var s := GetUserState(caller);
      ghost var before := users;
      users := users[caller := s.(consent := value)];
      forall a ensures Lookup(users, a, Unset).consent == LastConsent(log + [e], a) {
        assert (log + [e])[..|log|] == log;
        assert a != caller ==> Lookup(before, a, Unset).consent == LastConsent(log, a);
      }
      log := log + [e];
    }

    /** Adds one to the access counter of every address in `addresses`, once per
        occurrence, then emits one AccessBatch event. */
    method BatchRecordAccess(operator: Address, addresses: seq<Address>)
      requires Valid()
      modifies this
      ensures Valid()
      ensures forall a {:trigger a in users} :: a in users <==> a in old(users) || a in addresses
      ensures forall a {:trigger GetUserState(a)} :: GetUserState(a) == old(GetUserState(a)).AddAccess(multiset(addresses)[a])
      ensures log == old(log) + [AccessBatch(operator, |addresses|)]
    {
      var i := 0;
      while i < |addresses|
        invariant 0 <= i <= |addresses|
        invariant log == old(log)
        invariant forall a {:trigger a in users} :: a in users <==> a in old(users) || a in addresses[..i]
        invariant forall a {:trigger Lookup(users, a, Unset)} :: Lookup(users, a, Unset) == Lookup(old(users), a, Unset).AddAccess(multiset(addresses[..i])[a])
      {
        var u := addresses[i];
        var s := Lookup(users, u, Unset);
        ghost var before := users;
        users := users[u := s.AddAccess(1)];
        assert addresses[..i + 1] == addresses[..i] + [u];
        forall a ensures Lookup(users, a, Unset) == Lookup(old(users), a, Unset).AddAccess(multiset(addresses[..i + 1])[a]) {
          assert Lookup(before, a, Unset) == Lookup(old(users), a, Unset).AddAccess(multiset(addresses[..i])[a]);
        }
        i := i + 1;
      }
      assert addresses[..i] == addresses;
      var e := AccessBatch(operator, |addresses|);
      assert (log + [e])[..|log|] == log;
      log := log + [e];
    }

    /** Adds one to the deletion counter of every address in `addresses`, once per
        occurrence, then emits one DeletionBatch event. */
    method BatchRecordDeletion(operator: Address, addresses: seq<Address>)
      requires Valid()
      modifies this
      ensures Valid()
      ensures forall a {:trigger a in users} :: a in users <==> a in old(users) || a in addresses
      ensures forall a {:trigger GetUserState(a)} :: GetUserState(a) == old(GetUserState(a)).AddDeletion(multiset(addresses)[a])
      ensures log == old(log) + [DeletionBatch(operator, |addresses|)]
    {
      var i := 0;
      while i < |addresses|
        invariant 0 <= i <= |addresses|
        invariant log == old(log)
        invariant forall a {:trigger a in users} :: a in users <==> a in old(users) || a in addresses[..i]
        invariant forall a {:trigger Lookup(users, a, Unset)} :: Lookup(users, a, Unset) == Lookup(old(users), a, Unset).AddDeletion(multiset(addresses[..i])[a])
      {
        var u := addresses[i];
        var s := Lookup(users, u, Unset);
        ghost var before := users;
        users := users[u := s.AddDeletion(1)];
        assert addresses[..i + 1] == addresses[..i] + [u];
        forall a ensures Lookup(users, a, Unset) == Lookup(old(users), a, Unset).AddDeletion(multiset(addresses[..i + 1])[a]) {
          assert Lookup(before, a, Unset) == Lookup(old(users), a, Unset).AddDeletion(multiset(addresses[..i])[a]);
        }
        i := i + 1;
      }
      assert addresses[..i] == addresses;
      var e := DeletionBatch(operator, |addresses|);
      assert (log + [e])[..|log|] == log;
      log := log + [e];
    }
  }

  /** `n` access batches over the same list on a fresh registry: each address's
      access counter reads `n` times its number of occurrences in the list, its
      other fields are untouched, and the log holds exactly `n` batch events. */
  method RepeatedBatches(operator: Address, addresses: seq<Address>, n: nat, a: Address)
    returns (state: UserState, events: seq<Event>)
    ensures state == UserState(false, n * multiset(addresses)[a], 0)
    ensures |events| == n
    ensures forall i :: 0 <= i < n ==> events[i] == AccessBatch(operator, |addresses|)
  {
    var r := new ConsentOptimized();
    var i := 0;
    while i < n
      invariant 0 <= i <= n
      invariant r.Valid()
      invariant r.GetUserState(a) == UserState(false, i * multiset(addresses)[a], 0)
      invariant |r.log| == i
      invariant forall j :: 0 <= j < i ==> r.log[j] == AccessBatch(operator, |addresses|)
    {
      r.BatchRecordAccess(operator, addresses);
      assert (i + 1) * multiset(addresses)[a] == i * multiset(addresses)[a] + multiset(addresses)[a];
      i := i + 1;
    }
    state, events := r.GetUserState(a), r.log;
  }

  /** Repeats in one batch are counted per occurrence: after [u1, u1, u2] the
      counters read 2 and 1, and the batch emitted one event of length 3. */
  method DuplicateAddresses(operator: Address, u1: Address, u2: Address)
    returns (access1: nat, access2: nat, events: seq<Event>)
    requires u1 != u2
    ensures access1 == 2 && access2 == 1
    ensures events == [AccessBatch(operator, 3)]
  {
    var r := new ConsentOptimized();
    r.BatchRecordAccess(operator, [u1, u1, u2]);
    assert multiset([u1, u1, u2])[u1] == 2;
    access1, access2, events := r.GetUserState(u1).accessCount, r.GetUserState(u2).accessCount, r.log;
  }

  /** Records of different users evolve separately under a mix of consent
      settings, access batches and a deletion batch. */
  method SeparateUserState(operator: Address, u1: Address, u2: Address)
    returns (state1: UserState, state2: UserState)
    requires u1 != u2
    ensures state1 == UserState(true, 2, 0)
    ensures state2 == UserState(false, 1, 1)
  {
    var r := new ConsentOptimized();
    r.SetConsent(u1, true);
    r.SetConsent(u2, false);
    r.BatchRecordAccess(operator, [u1]);
    r.BatchRecordAccess(operator, [u1, u2]);
    r.BatchRecordDeletion(operator, [u2]);
    state1, state2 := r.GetUserState(u1), r.GetUserState(u2);
  }

  /** Two users consent, an operator batches access for both and deletion for
      the first, and the first revokes: only the first one's consent drops. */
  method CompleteWorkflow(operator: Address, u1: Address, u2: Address)
    returns (state1: UserState, state2: UserState)
    requires u1 != u2
    ensures state1 == UserState(false, 1, 1)
    ensures state2 == UserState(true, 1, 0)
  {
    var r := new ConsentOptimized();
    r.SetConsent(u1, true);
    r.SetConsent(u2, true);
    assert r.GetUserState(u1) == r.GetUserState(u2) == UserState(true, 0, 0);
    r.BatchRecordAccess(operator, [u1, u2]);
    assert multiset([u1, u2])[u1] == multiset([u1, u2])[u2] == 1;
    assert r.GetUserState(u1) == r.GetUserState(u2) == UserState(true, 1, 0);
    r.BatchRecordDeletion(operator, [u1]);
    assert multiset([u1])[u2] == 0;
    assert r.GetUserState(u1) == UserState(true, 1, 1);
    assert r.GetUserState(u2) == UserState(true, 1, 0);
    r.SetConsent(u1, false);
    state1, state2 := r.GetUserState(u1), r.GetUserState(u2);
  }

  /** The price of the aggregate event: batches over different addresses by the
      same operator leave identical logs but different records, so an address's
      own counters cannot be recovered from the log. */
  method BatchLogOmitsAddresses(operator: Address, u1: Address, u2: Address)
    returns (log1: seq<Event>, log2: seq<Event>, access1: nat, access2: nat)
    requires u1 != u2
    ensures log1 == log2
    ensures access1 == 1 && access2 == 0
  {
    var r1 := new ConsentOptimized();
    var r2 := new ConsentOptimized();
    r1.BatchRecordAccess(operator, [u1]);
    r2.BatchRecordAccess(operator, [u2]);
    log1, log2 := r1.log, r2.log;
    access1, access2 := r1.GetUserState(u1).accessCount, r2.GetUserState(u1).accessCount;
  }
}
