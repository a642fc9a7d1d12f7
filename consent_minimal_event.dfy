/** The ConsentMinimalEvent registry: only the consent flag is stored. Access and
    deletion requests are events and nothing else, so the record of them exists
    only in the append-only event log, which the contract never reads. */
module MinimalEvent {
  import opened Storage

  /** The events the contract emits. */
  datatype Event =
    | Consent(user: Address, consent: bool)
    | Access(user: Address)
    | Deletion(user: Address)

  /** The consent of `a` as a reader of the event log sees it: the value of the
      last Consent event for `a`, or false when there is none. The same replay as
      `Basic.LastConsent`, restated over this registry's own event type. */
  function LastConsent(log: seq<Event>, a: Address): bool {
    if log == [] then false
    else
      var e := log[|log| - 1];
      if e.Consent? && e.user == a then e.consent else LastConsent(log[..|log| - 1], a)
  }

  /** Appending an Access or Deletion event does not change what the log says
      about anyone's consent. */
  lemma RequestKeepsLastConsent(log: seq<Event>, e: Event, a: Address)
    requires !e.Consent?
    ensures LastConsent(log + [e], a) == LastConsent(log, a)
  {
    assert (log + [e])[..|log|] == log;
  }

  /** The consent a sequence of settings by one user leaves behind: the last
      value set, or false when there was none. */
  function Settled(values: seq<bool>): bool {
    values != [] && values[|values| - 1]
  }

  class ConsentMinimalEvent {
    var consent: map<Address, bool>
    /** The contract's event log, which the contract only appends to. */
    var log: seq<Event>

    /** Every stored consent flag is what replaying the log's Consent events gives. */
    ghost predicate Valid()
      reads this
    {
      forall a {:trigger Lookup(consent, a, false)} :: Lookup(consent, a, false) == LastConsent(log, a)
    }

    /** Deployment: nothing stored, nothing logged. */
    constructor ()
      ensures Valid()
      ensures consent == map[] && log == []
      ensures forall a {:trigger HasConsented(a)} :: !HasConsented(a)
    {
      consent, log := map[], [];
    }

    /** The stored flag; like `Basic.ConsentBasic.HasConsented`, it is what the
        log's last Consent event for `a` says. */
    function HasConsented(a: Address): (r: bool)
      reads this
      requires Valid()
      ensures r == LastConsent(log, a)
    {
      Lookup(consent, a, false)
    }

    /** Stores the caller's own consent and emits its Consent event, also when the
        value does not change. */
    method SetConsent(caller: Address, value: bool)
      requires Valid()
      modifies this
      ensures Valid()
      ensures consent == old(consent)[caller := value]
      ensures log == old(log) + [Consent(caller, value)]
      ensures HasConsented(caller) == value
    {
      var e := Consent(caller, value);
      ghost var before := consent;
      consent := consent[caller := value];
      forall a ensures Lookup(consent, a, false) == LastConsent(log + [e], a) {
        assert (log + [e])[..|log|] == log;
        assert a != caller ==> Lookup(before, a, false) == LastConsent(log, a);
      }
      log := log + [e];
    }

    /** Emits an Access event for the caller; stores nothing. */
    method EmitAccess(caller: Address)
      requires Valid()
      modifies this
      ensures Valid()
      ensures consent == old(consent)
      ensures log == old(log) + [Access(caller)]
    {
      forall a ensures LastConsent(log + [Access(caller)], a) == LastConsent(log, a) {
        RequestKeepsLastConsent(log, Access(caller), a);
      }
      log := log + [Access(caller)];
    }

    /** Emits a Deletion event for the caller; stores nothing. */
    method EmitDeletion(caller: Address)
      requires Valid()
      modifies this
      ensures Valid()
      ensures consent == old(consent)
      ensures log == old(log) + [Deletion(caller)]
    {
      forall a ensures LastConsent(log + [Deletion(caller)], a) == LastConsent(log, a) {
        RequestKeepsLastConsent(log, Deletion(caller), a);
      }
      log := log + [Deletion(caller)];
    }
  }

  /** A user sets consent to each of `values` in turn on a fresh registry: every
      call emitted its own Consent event, and the stored flag is the last value. */
  method ConsentSequence(user: Address, values: seq<bool>) returns (consented: bool, events: seq<Event>)
    ensures consented == Settled(values)
    ensures |events| == |values|
    ensures forall i :: 0 <= i < |values| ==> events[i] == Consent(user, values[i])
  {
    var r := new ConsentMinimalEvent();
    var i := 0;
    while i < |values|
      invariant 0 <= i <= |values|
      invariant r.Valid()
      invariant r.HasConsented(user) == Settled(values[..i])
      invariant |r.log| == i
      invariant forall j :: 0 <= j < i ==> r.log[j] == Consent(user, values[j])
    {
      r.SetConsent(user, values[i]);
      i := i + 1;
    }
    assert values[..i] == values;
    consented, events := r.HasConsented(user), r.log;
  }

  /** After giving consent, `k` access or deletion emissions by the same user each
      add exactly their one event, with no limit on repeats, and leave the
      consent as it was. */
  method RepeatedEmissions(user: Address, k: nat, deletion: bool) returns (consented: bool, events: seq<Event>)
    ensures consented
    ensures |events| == k + 1 && events[0] == Consent(user, true)
    ensures forall i :: 1 <= i <= k ==> events[i] == if deletion then Deletion(user) else Access(user)
  {
    var r := new ConsentMinimalEvent();
    r.SetConsent(user, true);
    var i := 0;
    while i < k
      invariant 0 <= i <= k
      invariant r.Valid()
      invariant r.HasConsented(user)
      invariant |r.log| == i + 1 && r.log[0] == Consent(user, true)
      invariant forall j :: 1 <= j <= i ==> r.log[j] == if deletion then Deletion(user) else Access(user)
    {
      if deletion {
        r.EmitDeletion(user);
      } else {
        r.EmitAccess(user);
      }
      i := i + 1;
    }
    consented, events := r.HasConsented(user), r.log;
  }

  /** Emissions are not restricted to any caller, the deployer included, and
      they change neither the consenting user's nor the deployer's stored
      consent. */
  method AnyCallerEmits(deployer: Address, user: Address)
    returns (userBefore: bool, userAfter: bool, deployerBefore: bool, deployerAfter: bool, events: seq<Event>)
    ensures userBefore && userAfter
    ensures deployerBefore == deployerAfter
    ensures deployer != user ==> !deployerBefore && !deployerAfter
    ensures events == [Consent(user, true), Access(deployer), Deletion(deployer), Access(user)]
  {
    var r := new ConsentMinimalEvent();
    r.SetConsent(user, true);
    userBefore, deployerBefore := r.HasConsented(user), r.HasConsented(deployer);
    r.EmitAccess(deployer);
    r.EmitDeletion(deployer);
    r.EmitAccess(user);
    userAfter, deployerAfter := r.HasConsented(user), r.HasConsented(deployer);
    events := r.log;
  }

  /** The event-based workflow of one user: consent, two access events, one
      deletion event, revocation; the log holds exactly those five events. */
  method CompleteWorkflow(user: Address) returns (consented: bool, events: seq<Event>)
    ensures !consented
    ensures events == [Consent(user, true), Access(user), Access(user), Deletion(user), Consent(user, false)]
  {
    var r := new ConsentMinimalEvent();
    r.SetConsent(user, true);
    r.EmitAccess(user);
    r.EmitAccess(user);
    r.EmitDeletion(user);
    r.SetConsent(user, false);
    consented, events := r.HasConsented(user), r.log;
  }

  /** Two users' operations interleave without touching each other's consent. */
  method MixedUsers(u1: Address, u2: Address) returns (consent1: bool, consent2: bool)
    requires u1 != u2
    ensures consent1 && !consent2
  {
    var r := new ConsentMinimalEvent();
    r.SetConsent(u1, true);
    r.EmitAccess(u1);
    r.EmitDeletion(u1);
    r.SetConsent(u2, false);
    r.EmitAccess(u2);
    r.EmitAccess(u2);
    r.EmitDeletion(u2);
    consent1, consent2 := r.HasConsented(u1), r.HasConsented(u2);
  }
}
