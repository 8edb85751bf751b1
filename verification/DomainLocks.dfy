/**
 * The in-process serialization domains of cadp/kernel/pep.ts: a map of promises, and any number of
 * asynchronous callers that run from one await to the next.
 */
module DomainLocks {

  type Domain = string
  type Promise = nat

  /** A caller of `acquire`: between awaits, awaiting a promise, or inside the section it guards. */
  datatype Caller =
    | Arrived(domain: Domain)
    | Awaiting(domain: Domain, promise: Promise)
    | Inside(domain: Domain, held: Promise)

  datatype State = State(locks: map<Domain, Promise>, settled: set<Promise>, made: nat, callers: map<nat, Caller>)

  datatype Event = Arrive(c: nat, domain: Domain) | Turn(c: nat) | Release(c: nat)

  /** The event loop can run this caller: it has not awaited yet, or what it awaits has settled. */
  predicate Runnable(s: State, c: nat) {
    c in s.callers && (s.callers[c].Arrived? || (s.callers[c].Awaiting? && s.callers[c].promise in s.settled))
  }

  predicate Enabled(s: State, ev: Event) {
    match ev
    case Arrive(c, _) => c !in s.callers
    case Turn(c) => Runnable(s, c)
    case Release(c) => c in s.callers && s.callers[c].Inside?
  }

  function Next(s: State, ev: Event): State
    requires Enabled(s, ev)
  {
    match ev
    case Arrive(c, d) => s.(callers := s.callers[c := Arrived(d)])
    case Turn(c) =>
      var d := s.callers[c].domain;
      if d in s.locks then s.(callers := s.callers[c := Awaiting(d, s.locks[d])])
      else State(s.locks[d := s.made], s.settled, s.made + 1, s.callers[c := Inside(d, s.made)])
    case Release(c) =>
      State(s.locks - {s.callers[c].domain}, s.settled + {s.callers[c].held}, s.made, s.callers - {c})
  }

  /** The locks as the source keeps them; one loop iteration of `acquire`, and the `release` closure. */
  class Locks {
    var locks: map<Domain, Promise>
    var settled: set<Promise>
    var made: nat

    constructor ()
      ensures locks == map[] && settled == {} && made == 0
    {
      locks, settled, made := map[], {}, 0;
    }

    function With(callers: map<nat, Caller>): State
      reads this
    {
      State(locks, settled, made, callers)
    }

    /** Runs a caller up to its next await, or into its section. */
    method Attempt(ghost callers: map<nat, Caller>, ghost c: nat, domain: Domain) returns (caller: Caller)
      requires Runnable(With(callers), c) && callers[c].domain == domain
      modifies this
      ensures With(callers[c := caller]) == Next(old(With(callers)), Turn(c))
    {
      if domain in locks {
        return Awaiting(domain, locks[domain]);
      }
      var held := made;
      made := made + 1;
      locks := locks[domain := held];
      return Inside(domain, held);
    }

    method ReleaseLock(ghost callers: map<nat, Caller>, ghost c: nat, domain: Domain, held: Promise)
      requires c in callers && callers[c] == Inside(domain, held)
      modifies this
      ensures With(callers - {c}) == Next(old(With(callers)), Release(c))
    {
      locks := locks - {domain};
      settled := settled + {held};
    }
  }

  // ---------------------------------------------------------------- invariant

  predicate Holds(s: State, c: nat, d: Domain) {
    c in s.callers && s.callers[c].Inside? && s.callers[c].domain == d
  }

  ghost predicate Inv(s: State) {
    && (forall d :: d in s.locks ==>
          s.locks[d] < s.made && s.locks[d] !in s.settled
          && exists c :: Holds(s, c, d) && s.callers[c].held == s.locks[d])
    && (forall c, d :: Holds(s, c, d) ==> d in s.locks && s.locks[d] == s.callers[c].held)
    && (forall b, c, d :: Holds(s, b, d) && Holds(s, c, d) ==> b == c)
    && (forall d, e :: d in s.locks && e in s.locks && s.locks[d] == s.locks[e] ==> d == e)
    && (forall c :: c in s.callers && s.callers[c].Awaiting? && s.callers[c].promise !in s.settled ==>
          s.callers[c].domain in s.locks && s.locks[s.callers[c].domain] == s.callers[c].promise)
    && (forall p :: p in s.settled ==> p < s.made)
    && (forall c :: c in s.callers && s.callers[c].Awaiting? ==> s.callers[c].promise < s.made)
  }

  lemma HolderStays(s: State, s': State, d: Domain)
    requires Inv(s) && d in s.locks && d in s'.locks && s'.locks[d] == s.locks[d]
    requires forall c :: Holds(s, c, d) ==> c in s'.callers && s'.callers[c] == s.callers[c]
    ensures exists c :: Holds(s', c, d) && s'.callers[c].held == s'.locks[d]
  {
    var c :| Holds(s, c, d) && s.callers[c].held == s.locks[d];
    assert Holds(s', c, d);
  }

  lemma ArriveKeepsInv(s: State, c: nat, d: Domain)
    requires Inv(s) && c !in s.callers
    ensures Inv(Next(s, Arrive(c, d)))
  {
    var s' := Next(s, Arrive(c, d));
    forall e | e in s'.locks ensures exists h :: Holds(s', h, e) && s'.callers[h].held == s'.locks[e] {
      HolderStays(s, s', e);
    }
    assert forall h, e :: Holds(s', h, e) ==> Holds(s, h, e);
  }

  lemma WaitKeepsInv(s: State, c: nat)
    requires Inv(s) && Runnable(s, c) && s.callers[c].domain in s.locks
    ensures Inv(Next(s, Turn(c)))
  {
    var s' := Next(s, Turn(c));
    forall e | e in s'.locks ensures exists h :: Holds(s', h, e) && s'.callers[h].held == s'.locks[e] {
      HolderStays(s, s', e);
    }
    assert forall h, e :: Holds(s', h, e) ==> Holds(s, h, e);
  }

  lemma EnterKeepsInv(s: State, c: nat)
    requires Inv(s) && Runnable(s, c) && s.callers[c].domain !in s.locks
    ensures Inv(Next(s, Turn(c)))
  {
    var s', d := Next(s, Turn(c)), s.callers[c].domain;
    assert Holds(s', c, d) && s'.callers[c].held == s'.locks[d];
    forall e | e in s.locks ensures exists h :: Holds(s', h, e) && s'.callers[h].held == s'.locks[e] {
      HolderStays(s, s', e);
    }
    assert forall h, e :: Holds(s', h, e) ==> Holds(s, h, e) || (h == c && e == d);
  }

  lemma ReleaseKeepsInv(s: State, c: nat)
    requires Inv(s) && c in s.callers && s.callers[c].Inside?
    ensures Inv(Next(s, Release(c)))
  {
    var s', d := Next(s, Release(c)), s.callers[c].domain;
    assert Holds(s, c, d);
    forall e | e in s'.locks ensures exists h :: Holds(s', h, e) && s'.callers[h].held == s'.locks[e] {
      HolderStays(s, s', e);
    }
    assert forall h, e :: Holds(s', h, e) ==> Holds(s, h, e);
  }

  ghost predicate History(trace: seq<State>, events: seq<Event>) {
    && |trace| == |events| + 1 && trace[0] == State(map[], {}, 0, map[])
    && forall k :: 0 <= k < |events| ==> Enabled(trace[k], events[k]) && trace[k + 1] == Next(trace[k], events[k])
  }

  lemma {:induction false} Reachable(trace: seq<State>, events: seq<Event>, k: nat)
    requires History(trace, events) && k < |trace|
    ensures Inv(trace[k])
  {
    if k > 0 {
      Reachable(trace, events, k - 1);
      match events[k - 1]
      case Arrive(c, d) => ArriveKeepsInv(trace[k - 1], c, d);
      case Turn(c) =>
        if trace[k - 1].callers[c].domain in trace[k - 1].locks {
          WaitKeepsInv(trace[k - 1], c);
        } else {
          EnterKeepsInv(trace[k - 1], c);
        }
      case Release(c) => ReleaseKeepsInv(trace[k - 1], c);
    }
  }

  /**
   * Main: at any moment at most one caller is inside a domain, the map has an entry exactly while one is,
   * and every waiting caller either can run or waits on the promise of the caller that is inside now.
   */
  lemma MutualExclusion(trace: seq<State>, events: seq<Event>, k: nat)
    requires History(trace, events) && k < |trace|
    ensures var s := trace[k];
      && (forall b, c, d :: Holds(s, b, d) && Holds(s, c, d) ==> b == c)
      && (forall d :: d in s.locks <==> exists c :: Holds(s, c, d))
      && (forall c :: c in s.callers && s.callers[c].Awaiting? && !Runnable(s, c) ==>
            exists h :: Holds(s, h, s.callers[c].domain) && s.callers[h].held == s.callers[c].promise)
  {
    Reachable(trace, events, k);
  }

  /** No wakeup is lost: when nobody is inside a domain, every caller of it can run, and the next one enters. */
  lemma FreeDomainIsEntered(trace: seq<State>, events: seq<Event>, k: nat, c: nat)
    requires History(trace, events) && k < |trace| && c in trace[k].callers
    requires forall h :: !Holds(trace[k], h, trace[k].callers[c].domain)
    ensures Runnable(trace[k], c) && Holds(Next(trace[k], Turn(c)), c, trace[k].callers[c].domain)
  {
    Reachable(trace, events, k);
    assert !Holds(trace[k], c, trace[k].callers[c].domain);
  }
}
