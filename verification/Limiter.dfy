/** The login limiter: fixed attempt windows per key under a bounded number of keys
    (backend/internal/httpapi/ratelimit.go). Times are instants on one clock. */
module Limiter {
  import opened Wrappers

  datatype Window = Window(started: int, count: nat)

  type Attempts = map<string, Window>

  datatype Rules = Rules(limit: nat, maxKeys: nat, window: nat)

  /** The rules of `newLoginLimiter`: five attempts per quarter hour, in nanoseconds. */
  const LOGIN_RULES: Rules := Rules(5, 10_000, 900_000_000_000)

  datatype Decision = Allowed | Refused(retryAfter: int, full: bool)

  predicate Expired(w: Window, now: int, rules: Rules) {
    now - w.started >= rules.window
  }

  function Evict(m: Attempts, now: int, rules: Rules): Attempts {
    map k | k in m && !Expired(m[k], now, rules) :: m[k]
  }

  /** One attempt when there is always room. */
  function Count(m: Attempts, key: string, now: int, rules: Rules): (Attempts, Decision) {
    if key !in m || Expired(m[key], now, rules) then (m[key := Window(now, 1)], Allowed)
    else if m[key].count >= rules.limit then (m, Refused(rules.window - (now - m[key].started), false))
    else (m[key := Window(m[key].started, m[key].count + 1)], Allowed)
  }

  /** `Allow`. */
  function Allow(m: Attempts, key: string, now: int, rules: Rules): (Attempts, Decision) {
    var kept := if key !in m && |m| >= rules.maxKeys then Evict(m, now, rules) else m;
    if key !in m && |kept| >= rules.maxKeys then (kept, Refused(rules.window, true))
    else Count(kept, key, now, rules)
  }

  class LoginLimiter {
    var attempts: Attempts
    const rules: Rules

    constructor (rules: Rules)
      ensures attempts == map[] && this.rules == rules
    {
      this.rules := rules;
      attempts := map[];
    }

    method EvictExpired(now: int)
      modifies this
      ensures attempts == Evict(old(attempts), now, rules)
    {
      var candidates := attempts.Keys;
      while candidates != {}
        invariant candidates <= old(attempts).Keys
        invariant attempts == map k | k in old(attempts) &&
                                      (k in candidates || !Expired(old(attempts)[k], now, rules)) :: old(attempts)[k]
        decreases candidates
      {
        var candidate :| candidate in candidates;
        if Expired(attempts[candidate], now, rules) {
          attempts := map k | k in attempts && k != candidate :: attempts[k];
        }
        candidates := candidates - {candidate};
      }
    }

    method AllowAttempt(key: string, now: int) returns (allowed: bool, retryAfter: int)
      modifies this
      ensures attempts == Allow(old(attempts), key, now, rules).0
      ensures allowed <==> Allow(old(attempts), key, now, rules).1.Allowed?
      ensures retryAfter == if allowed then 0 else Allow(old(attempts), key, now, rules).1.retryAfter
      ensures |old(attempts)| <= rules.maxKeys ==> |attempts| <= rules.maxKeys
    {
      if |attempts| <= rules.maxKeys {
        StaysBounded(attempts, key, now, rules);
      }
      var known := key in attempts;
      if !known && |attempts| >= rules.maxKeys {
        EvictExpired(now);
        if |attempts| >= rules.maxKeys {
          return false, rules.window;
        }
      }
      if !known || Expired(attempts[key], now, rules) {
        attempts := attempts[key := Window(now, 1)];
        return true, 0;
      }
      if attempts[key].count >= rules.limit {
        return false, rules.window - (now - attempts[key].started);
      }
      attempts := attempts[key := Window(attempts[key].started, attempts[key].count + 1)];
      return true, 0;
    }

    method Reset(key: string)
      modifies this
      ensures key !in attempts
      ensures forall k | k != key ::
        (k in attempts <==> k in old(attempts)) && (k in attempts ==> attempts[k] == old(attempts)[k])
    {
      attempts := attempts - {key};
    }
  }

  // ---- the map is bounded ----

  /** The map never outgrows its bound. */
  lemma StaysBounded(m: Attempts, key: string, now: int, rules: Rules)
    requires |m| <= rules.maxKeys
    ensures |Allow(m, key, now, rules).0| <= rules.maxKeys
  {
    var kept := Evict(m, now, rules);
    assert kept.Keys <= m.Keys;
    SubsetSize(kept.Keys, m.Keys);
    SizeWith(m, key, Window(now, 1));
    SizeWith(kept, key, Window(now, 1));
    if key in m {
      SizeWith(m, key, Window(m[key].started, m[key].count + 1));
    }
  }

  lemma SizeWith(m: Attempts, key: string, w: Window)
    ensures |m[key := w]| == if key in m then |m| else |m| + 1
  {
    assert m[key := w].Keys == m.Keys + {key};
    assert |m| == |m.Keys| && |m[key := w]| == |m[key := w].Keys|;
  }

  // ---- runs ----

  /** A call on the limiter and the time it is made. */
  datatype Call = Attempt(key: string, now: int) | Reset(key: string, now: int)

  ghost predicate Clocked(calls: seq<Call>) {
    forall i, j :: 0 <= i <= j < |calls| ==> calls[i].now <= calls[j].now
  }

  function Perform(m: Attempts, call: Call, rules: Rules): Attempts {
    match call
    case Attempt(key, now) => Allow(m, key, now, rules).0
    case Reset(key, _) => m - {key}
  }

  function StateAfter(calls: seq<Call>, rules: Rules): Attempts
    decreases |calls|
  {
    if calls == [] then map[] else Perform(StateAfter(calls[..|calls| - 1], rules), calls[|calls| - 1], rules)
  }

  /** The decision on an attempt after some calls. */
  function DecisionAfter(before: seq<Call>, key: string, now: int, rules: Rules): Decision {
    Allow(StateAfter(before, rules), key, now, rules).1
  }

  // ---- eviction is invisible ----

  /** A limiter that never evicts. Attempts refused for lack of room do not reach it. */
  function Reference(calls: seq<Call>, rules: Rules): Attempts
    decreases |calls|
  {
    if calls == [] then map[]
    else
      var before := calls[..|calls| - 1];
      match calls[|calls| - 1]
      case Reset(key, _) => Reference(before, rules) - {key}
      case Attempt(key, now) =>
        var decision := DecisionAfter(before, key, now, rules);
        if decision.Refused? && decision.full then Reference(before, rules)
        else Count(Reference(before, rules), key, now, rules).0
  }

  /** What the bounded map holds is what the reference holds; what it lacks has expired. */
  ghost predicate Mirrors(m: Attempts, reference: Attempts, now: int, rules: Rules) {
    && (forall k | k in m :: k in reference && m[k] == reference[k])
    && (forall k | k in reference && k !in m :: Expired(reference[k], now, rules))
  }

  lemma {:induction false} BoundedMirrorsReference(calls: seq<Call>, rules: Rules, now: int)
    requires Clocked(calls) && (calls != [] ==> calls[|calls| - 1].now <= now)
    ensures Mirrors(StateAfter(calls, rules), Reference(calls, rules), now, rules)
    decreases |calls|
  {
    if calls != [] {
      var last, before := calls[|calls| - 1], calls[..|calls| - 1];
      BoundedMirrorsReference(before, rules, last.now);
      if last.Attempt? {
        MirrorsStep(StateAfter(before, rules), Reference(before, rules), last.key, last.now, now, rules);
      }
    }
  }

  lemma MirrorsStep(m: Attempts, reference: Attempts, key: string, now: int, later: int, rules: Rules)
    requires Mirrors(m, reference, now, rules) && now <= later
    ensures var r := Allow(m, key, now, rules);
            if r.1.Refused? && r.1.full then Mirrors(r.0, reference, later, rules)
            else r.1 == Count(reference, key, now, rules).1 &&
                 Mirrors(r.0, Count(reference, key, now, rules).0, later, rules)
  {
    var evicted := Evict(m, now, rules);
    EvictedMirrors(m, reference, now, rules);
    CountMirrors(m, reference, key, now, later, rules);
    if key !in m {
      CountMirrors(evicted, reference, key, now, later, rules);
    }
    MirrorsLater(evicted, reference, now, later, rules);
    hide Mirrors, Count, Evict;
  }

  lemma EvictedMirrors(m: Attempts, reference: Attempts, now: int, rules: Rules)
    requires Mirrors(m, reference, now, rules)
    ensures Mirrors(Evict(m, now, rules), reference, now, rules)
    ensures forall key :: key !in m ==> key !in Evict(m, now, rules)
  {
  }

  lemma MirrorsLater(m: Attempts, reference: Attempts, now: int, later: int, rules: Rules)
    requires Mirrors(m, reference, now, rules) && now <= later
    ensures Mirrors(m, reference, later, rules)
  {
  }

  lemma CountMirrors(m: Attempts, reference: Attempts, key: string, now: int, later: int, rules: Rules)
    requires Mirrors(m, reference, now, rules) && now <= later
    ensures Count(m, key, now, rules).1 == Count(reference, key, now, rules).1
    ensures Mirrors(Count(m, key, now, rules).0, Count(reference, key, now, rules).0, later, rules)
  {
  }

  /** Except when it refuses for lack of room, the bounded limiter decides exactly as the one
      that never forgets. */
  lemma EvictionIsInvisible(before: seq<Call>, key: string, now: int, rules: Rules)
    requires Clocked(before) && (before != [] ==> before[|before| - 1].now <= now)
    ensures var decision := DecisionAfter(before, key, now, rules);
            (decision.Refused? && decision.full) || decision == Count(Reference(before, rules), key, now, rules).1
  {
    BoundedMirrorsReference(before, rules, now);
    MirrorsStep(StateAfter(before, rules), Reference(before, rules), key, now, now, rules);
  }

  // ---- retry times ----

  /** More calls, from a given state. */
  function Play(m: Attempts, calls: seq<Call>, rules: Rules): Attempts
    decreases |calls|
  {
    if calls == [] then m else Play(Perform(m, calls[0], rules), calls[1..], rules)
  }

  lemma {:induction false} StateIsPlayed(before: seq<Call>, later: seq<Call>, rules: Rules)
    ensures StateAfter(before + later, rules) == Play(StateAfter(before, rules), later, rules)
    decreases |later|
  {
    if later == [] {
      assert before + later == before;
    } else {
      var next := before + [later[0]];
      assert next[..|next| - 1] == before && before + later == next + later[1..];
      StateIsPlayed(next, later[1..], rules);
    }
  }

  /** The calls come one after the other, from one time to another, and do not reset the key. */
  ghost predicate Between(calls: seq<Call>, from: int, to: int, key: string) {
    && (forall i | 0 <= i < |calls| :: from <= calls[i].now <= to && (calls[i].Reset? ==> calls[i].key != key))
    && Clocked(calls)
  }

  /** The key holds this window, or lost it expired. */
  predicate Holds(m: Attempts, key: string, w: Window, now: int, rules: Rules) {
    if key in m then m[key] == w else Expired(w, now, rules)
  }

  /** A full window stays as it is while it lasts; afterwards, if the key is not tried again, it
      stays or is evicted. */
  lemma {:induction false} FullWindowLasts(m: Attempts, later: seq<Call>, key: string, w: Window, at: int, now: int,
                                           rules: Rules)
    requires Holds(m, key, w, at, rules) && w.count >= rules.limit
    requires at <= now && Between(later, at, now, key)
    requires forall i | 0 <= i < |later| && later[i].Attempt? && later[i].key == key :: !Expired(w, later[i].now, rules)
    ensures Holds(Play(m, later, rules), key, w, now, rules)
    decreases |later|
  {
    if later == [] {
      HoldsLater(m, key, w, at, now, rules);
    } else {
      var call, rest := later[0], later[1..];
      HoldsLater(m, key, w, at, call.now, rules);
      WindowStep(m, call, key, w, rules);
      hide Holds, Perform, Expired;
      assert forall i | 0 <= i < |rest| :: rest[i] == later[i + 1];
      FullWindowLasts(Perform(m, call, rules), rest, key, w, call.now, now, rules);
    }
  }

  lemma HoldsLater(m: Attempts, key: string, w: Window, now: int, later: int, rules: Rules)
    requires Holds(m, key, w, now, rules) && now <= later
    ensures Holds(m, key, w, later, rules)
  {
  }

  lemma WindowStep(m: Attempts, call: Call, key: string, w: Window, rules: Rules)
    requires Holds(m, key, w, call.now, rules) && w.count >= rules.limit && (call.Reset? ==> call.key != key)
    requires call.Attempt? && call.key == key ==> !Expired(w, call.now, rules)
    ensures Holds(Perform(m, call, rules), key, w, call.now, rules)
  {
  }

  lemma RefusedStaysFull(m: Attempts, key: string, at: int, rules: Rules)
    requires var d := Allow(m, key, at, rules).1; d.Refused? && !d.full
    ensures key in m && Perform(m, Attempt(key, at), rules) == m && m[key].count >= rules.limit
    ensures Allow(m, key, at, rules).1.retryAfter == rules.window - (at - m[key].started) > 0
  {
  }

  /** A returned retry time is exact, whatever calls follow that do not reset the key. Until it
      has passed every attempt is refused, with just the time that remains. From then on the
      first attempt is allowed, unless there is no room for a key that was evicted. */
  lemma RetryTimeIsExact(before: seq<Call>, later: seq<Call>, key: string, at: int, now: int, rules: Rules)
    requires at <= now && Between(later, at, now, key)
    requires var d := DecisionAfter(before, key, at, rules); d.Refused? && !d.full
    requires forall i | 0 <= i < |later| && later[i].Attempt? && later[i].key == key ::
               later[i].now < at + DecisionAfter(before, key, at, rules).retryAfter
    ensures var retry := DecisionAfter(before, key, at, rules).retryAfter;
            var d := DecisionAfter(before + ([Attempt(key, at)] + later), key, now, rules);
      && retry > 0
      && (now < at + retry ==> d == Refused(at + retry - now, false))
      && (now >= at + retry ==> d.Allowed? || d.full)
  {
    var m, calls := StateAfter(before, rules), [Attempt(key, at)] + later;
    RefusedStaysFull(m, key, at, rules);
    StateIsPlayed(before, calls, rules);
    assert calls[1..] == later && Play(m, calls, rules) == Play(m, later, rules);
    FullWindowLasts(m, later, key, m[key], at, now, rules);
    hide Play, StateAfter, Between, Perform;
    HeldDecision(Play(m, later, rules), key, m[key], now, rules);
    hide Allow, Holds;
  }

  /** The decision on a key with a full window, held or lost. */
  lemma HeldDecision(m: Attempts, key: string, w: Window, now: int, rules: Rules)
    requires Holds(m, key, w, now, rules) && w.count >= rules.limit
    ensures var d := Allow(m, key, now, rules).1;
      && (now - w.started < rules.window ==> d == Refused(rules.window - (now - w.started), false))
      && (now - w.started >= rules.window ==> d.Allowed? || d.full)
  {
  }

  /** A reset key starts afresh: the next attempt with it is refused for lack of room at most. */
  lemma ResetStartsAfresh(before: seq<Call>, key: string, at: int, now: int, rules: Rules)
    ensures var d := DecisionAfter(before + [Reset(key, at)], key, now, rules);
            && key !in StateAfter(before + [Reset(key, at)], rules)
            && (d.Allowed? || d.full)
    ensures forall k | k != key && k in StateAfter(before, rules) ::
              k in StateAfter(before + [Reset(key, at)], rules) &&
              StateAfter(before + [Reset(key, at)], rules)[k] == StateAfter(before, rules)[k]
  {
    var calls := before + [Reset(key, at)];
    assert calls[..|calls| - 1] == before;
  }

  // ---- when there is no room ----

  /** When the key's window was opened, if it was: by an allowed attempt that found none, or one
      that had lasted its time. A reset forgets it. */
  function OpenedAt(calls: seq<Call>, key: string, rules: Rules): Option<int>
    decreases |calls|
  {
    if calls == [] then None
    else
      var before, last := calls[..|calls| - 1], calls[|calls| - 1];
      var since := OpenedAt(before, key, rules);
      if last.key != key then since
      else if last.Reset? then None
      else if DecisionAfter(before, key, last.now, rules).Allowed? &&
              (since.None? || last.now - since.value >= rules.window)
      then Some(last.now)
      else since
  }

  /** The keys whose window was opened less than a window ago. */
  function Live(calls: seq<Call>, now: int, rules: Rules): set<string> {
    set c | c in calls && OpenedAt(calls, c.key, rules).Some? &&
            now - OpenedAt(calls, c.key, rules).value < rules.window :: c.key
  }

  /** The map holds the window of every key at the time it was opened, and lacks only windows that
      have lasted their time. */
  ghost predicate Remembers(m: Attempts, since: Option<int>, key: string, now: int, rules: Rules) {
    if key in m then since == Some(m[key].started) else since.None? || now - since.value >= rules.window
  }

  lemma {:induction false} MapRemembers(calls: seq<Call>, key: string, now: int, rules: Rules)
    requires Clocked(calls) && (calls != [] ==> calls[|calls| - 1].now <= now)
    ensures Remembers(StateAfter(calls, rules), OpenedAt(calls, key, rules), key, now, rules)
    decreases |calls|
  {
    if calls != [] {
      var before, last := calls[..|calls| - 1], calls[|calls| - 1];
      MapRemembers(before, key, last.now, rules);
      RemembersStep(StateAfter(before, rules), OpenedAt(before, key, rules), last, key, now, rules);
      hide Perform, Remembers, Allow;
    }
  }

  lemma RemembersStep(m: Attempts, since: Option<int>, call: Call, key: string, now: int, rules: Rules)
    requires Remembers(m, since, key, call.now, rules) && call.now <= now
    ensures var next :=
              if call.key != key then since
              else if call.Reset? then None
              else if Allow(m, key, call.now, rules).1.Allowed? &&
                      (since.None? || call.now - since.value >= rules.window)
              then Some(call.now)
              else since;
            Remembers(Perform(m, call, rules), next, key, now, rules)
  {
  }

  lemma {:induction false} OpenedWasCalled(calls: seq<Call>, key: string, rules: Rules)
    requires OpenedAt(calls, key, rules).Some?
    ensures exists c :: c in calls && c.key == key
    decreases |calls|
  {
    hide DecisionAfter;
    var before, last := calls[..|calls| - 1], calls[|calls| - 1];
    assert last in calls;
    if last.key != key {
      OpenedWasCalled(before, key, rules);
      var c :| c in before && c.key == key;
      assert c in calls;
    }
  }

  lemma LiveIsKept(calls: seq<Call>, now: int, rules: Rules)
    requires Clocked(calls) && (calls != [] ==> calls[|calls| - 1].now <= now)
    ensures Live(calls, now, rules) == Evict(StateAfter(calls, rules), now, rules).Keys
  {
    var m, live := StateAfter(calls, rules), Live(calls, now, rules);
    forall key
      ensures key in live <==> key in m && !Expired(m[key], now, rules)
    {
      MapRemembers(calls, key, now, rules);
      hide StateAfter;
      if OpenedAt(calls, key, rules).Some? {
        OpenedWasCalled(calls, key, rules);
      }
      hide OpenedAt;
    }
  }

  /** An attempt is refused for lack of room if and only if its key is not in the map and as many
      keys as the map may hold have a window that was opened less than a window ago. */
  lemma CapacityIsExact(before: seq<Call>, key: string, now: int, rules: Rules)
    requires Clocked(before) && (before != [] ==> before[|before| - 1].now <= now)
    ensures var d := DecisionAfter(before, key, now, rules);
            d.Refused? && d.full <==> key !in StateAfter(before, rules) && |Live(before, now, rules)| >= rules.maxKeys
  {
    var m := StateAfter(before, rules);
    LiveIsKept(before, now, rules);
    hide StateAfter, Live;
    FullMeans(m, key, now, rules);
  }

  lemma FullMeans(m: Attempts, key: string, now: int, rules: Rules)
    ensures var d := Allow(m, key, now, rules).1;
            d.Refused? && d.full <==> key !in m && |Evict(m, now, rules).Keys| >= rules.maxKeys
  {
    var kept := Evict(m, now, rules);
    assert kept.Keys <= m.Keys;
    SubsetSize(kept.Keys, m.Keys);
    assert |kept| == |kept.Keys| && |m| == |m.Keys|;
  }

  // ---- what a fresh window admits ----

  /** The attempts with this key. */
  function Tries(calls: seq<Call>, key: string): nat
    decreases |calls|
  {
    if calls == [] then 0 else (if calls[0].Attempt? && calls[0].key == key then 1 else 0) + Tries(calls[1..], key)
  }

  lemma {:induction false} TriesAreCounted(m: Attempts, calls: seq<Call>, key: string, at: int, from: int, now: int,
                                           rules: Rules)
    requires key in m && m[key].started == at && 1 <= m[key].count <= rules.limit
    requires at <= from <= now < at + rules.window && Between(calls, from, now, key)
    ensures var n := Play(m, calls, rules);
            key in n && n[key] == Window(at, Min(rules.limit, m[key].count + Tries(calls, key)))
    decreases |calls|
  {
    hide Perform;
    if calls != [] {
      var call, rest := calls[0], calls[1..];
      TryIsCounted(m, call, key, at, rules);
      assert forall i | 0 <= i < |rest| :: rest[i] == calls[i + 1];
      TriesAreCounted(Perform(m, call, rules), rest, key, at, call.now, now, rules);
    }
  }

  lemma TryIsCounted(m: Attempts, call: Call, key: string, at: int, rules: Rules)
    requires key in m && m[key].started == at && 1 <= m[key].count <= rules.limit
    requires call.now - at < rules.window && (call.Reset? ==> call.key != key)
    ensures var n := Perform(m, call, rules);
            key in n && n[key] == Window(at, if call.Attempt? && call.key == key then Min(rules.limit, m[key].count + 1)
                                             else m[key].count)
  {
  }

  /** A key without a current window, when fewer keys than the map may hold have one: its attempt is
      allowed, and within one window of it so are the next ones up to the limit, and no other,
      whatever other keys do. The refusals name the time that remains. */
  lemma FreshWindowAdmitsTheLimit(before: seq<Call>, later: seq<Call>, key: string, at: int, now: int, rules: Rules)
    requires Clocked(before) && (before != [] ==> before[|before| - 1].now <= at) && rules.limit >= 1
    requires var since := OpenedAt(before, key, rules); since.None? || at - since.value >= rules.window
    requires |Live(before, at, rules)| < rules.maxKeys
    requires at <= now < at + rules.window && Between(later, at, now, key)
    ensures DecisionAfter(before, key, at, rules) == Allowed
    ensures DecisionAfter(before + ([Attempt(key, at)] + later), key, now, rules) ==
            if 1 + Tries(later, key) < rules.limit then Allowed else Refused(at + rules.window - now, false)
  {
    hide StateAfter, OpenedAt, Live, Allow, Play, Between, Expired;
    MapRemembers(before, key, at, rules);
    CapacityIsExact(before, key, at, rules);
    StateIsPlayed(before, [Attempt(key, at)] + later, rules);
    FreshPlay(StateAfter(before, rules), later, key, at, now, rules);
  }

  lemma FreshPlay(m: Attempts, later: seq<Call>, key: string, at: int, now: int, rules: Rules)
    requires key in m ==> at - m[key].started >= rules.window
    requires var d := Allow(m, key, at, rules).1; !(d.Refused? && d.full)
    requires at <= now < at + rules.window && Between(later, at, now, key) && rules.limit >= 1
    ensures Allow(m, key, at, rules).1 == Allowed
    ensures Allow(Play(m, [Attempt(key, at)] + later, rules), key, now, rules).1 ==
            if 1 + Tries(later, key) < rules.limit then Allowed else Refused(at + rules.window - now, false)
  {
    var calls := [Attempt(key, at)] + later;
    assert calls[1..] == later && calls[0] == Attempt(key, at);
    var next := Perform(m, Attempt(key, at), rules);
    assert Play(m, calls, rules) == Play(next, later, rules);
    hide Play, Perform, Allow, Between;
    FreshAttempt(m, key, at, rules);
    TriesAreCounted(next, later, key, at, at, now, rules);
    CountedDecision(Play(next, later, rules), key, at, now, rules);
  }

  lemma FreshAttempt(m: Attempts, key: string, at: int, rules: Rules)
    requires key in m ==> at - m[key].started >= rules.window
    requires var d := Allow(m, key, at, rules).1; !(d.Refused? && d.full)
    ensures Allow(m, key, at, rules).1 == Allowed
    ensures var n := Perform(m, Attempt(key, at), rules); key in n && n[key] == Window(at, 1)
  {
  }

  lemma CountedDecision(m: Attempts, key: string, at: int, now: int, rules: Rules)
    requires key in m && m[key].started == at && now - at < rules.window
    ensures Allow(m, key, now, rules).1 ==
            if m[key].count < rules.limit then Allowed else Refused(at + rules.window - now, false)
  {
  }

  // ---- how many attempts a window admits ----

  /** The last of some calls is an allowed attempt with this key. */
  predicate JustAllowed(calls: seq<Call>, key: string, rules: Rules)
    requires calls != []
  {
    var last := calls[|calls| - 1];
    last.Attempt? && last.key == key && DecisionAfter(calls[..|calls| - 1], key, last.now, rules).Allowed?
  }

  /** The times at which a key was allowed. */
  function AllowedTimes(calls: seq<Call>, key: string, rules: Rules): seq<int>
    decreases |calls|
  {
    if calls == [] then []
    else
      AllowedTimes(calls[..|calls| - 1], key, rules) +
      (if JustAllowed(calls, key, rules) then [calls[|calls| - 1].now] else [])
  }

  /** How many of the times fall into the half-open interval of length `window` from `from`. */
  function CountIn(times: seq<int>, from: int, window: nat): nat
    decreases |times|
  {
    if times == [] then 0
    else CountIn(times[..|times| - 1], from, window) +
         (if from <= times[|times| - 1] < from + window then 1 else 0)
  }

  lemma {:induction false} CountConcat(a: seq<int>, b: seq<int>, from: int, window: nat)
    ensures CountIn(a + b, from, window) == CountIn(a, from, window) + CountIn(b, from, window)
    decreases |b|
  {
    if b == [] {
      assert a + b == a;
    } else {
      assert (a + b)[..|a + b| - 1] == a + b[..|b| - 1];
      CountConcat(a, b[..|b| - 1], from, window);
    }
  }

  lemma {:induction false} CountNoMore(times: seq<int>, from: int, window: nat)
    ensures CountIn(times, from, window) <= |times|
    ensures times != [] && times[0] < from ==> CountIn(times, from, window) <= |times| - 1
    ensures (forall i | 0 <= i < |times| :: times[i] < from) ==> CountIn(times, from, window) == 0
    decreases |times|
  {
    if times != [] {
      CountNoMore(times[..|times| - 1], from, window);
    }
  }

  function Flatten(groups: seq<seq<int>>): seq<int> {
    if groups == [] then [] else Flatten(groups[..|groups| - 1]) + groups[|groups| - 1]
  }

  /** Allowed times grouped by the window that counted them: at most `limit` to a group, within
      one window of its first, and the first times at least a window apart. */
  ghost predicate Grouped(groups: seq<seq<int>>, rules: Rules) {
    && (forall i | 0 <= i < |groups| :: 1 <= |groups[i]| <= rules.limit && Within(groups[i], rules.window))
    && (forall i, j | 0 <= i < j < |groups| && groups[i] != [] && groups[j] != [] ::
          groups[i][0] + rules.window <= groups[j][0])
  }

  ghost predicate Within(group: seq<int>, window: nat) {
    forall i | 0 <= i < |group| :: group[0] <= group[i] < group[0] + window
  }

  /** The groups match the state: the last one is the key's current window, or has expired. */
  ghost predicate Tracks(groups: seq<seq<int>>, m: Attempts, key: string, now: int, rules: Rules) {
    && Grouped(groups, rules)
    && (key in m ==>
          groups != [] && groups[|groups| - 1][0] == m[key].started && |groups[|groups| - 1]| == m[key].count)
    && (key !in m && groups != [] ==> groups[|groups| - 1][0] + rules.window <= now)
    && (groups != [] ==> groups[|groups| - 1][0] <= now)
  }

  lemma {:induction false} TimesAreGrouped(calls: seq<Call>, key: string, rules: Rules, now: int)
    returns (groups: seq<seq<int>>)
    requires Clocked(calls) && rules.limit >= 1 && rules.window >= 1
    requires calls != [] ==> calls[|calls| - 1].now <= now
    requires forall c | c in calls && c.Reset? :: c.key != key
    ensures Flatten(groups) == AllowedTimes(calls, key, rules)
    ensures Tracks(groups, StateAfter(calls, rules), key, now, rules)
    decreases |calls|
  {
    groups := [];
    if calls != [] {
      var last, before := calls[|calls| - 1], calls[..|calls| - 1];
      assert last in calls;
      groups := TimesAreGrouped(before, key, rules, last.now);
      assert AllowedTimes(before, key, rules) + [] == AllowedTimes(before, key, rules);
      if JustAllowed(calls, key, rules) {
        groups := TracksAllowed(groups, StateAfter(before, rules), key, last.now, now, rules);
      } else if last.Attempt? {
        TracksUncounted(groups, StateAfter(before, rules), last.key, key, last.now, now, rules);
      }
    }
  }

  // An attempt that is not allowed for this key keeps its window or drops it expired.
  lemma TracksUncounted(groups: seq<seq<int>>, m: Attempts, tried: string, key: string, now: int, later: int,
                        rules: Rules)
    requires Tracks(groups, m, key, now, rules) && now <= later
    requires tried != key || Allow(m, tried, now, rules).1.Refused?
    ensures Tracks(groups, Allow(m, tried, now, rules).0, key, later, rules)
  {
    hide Grouped;
  }

  lemma TracksAllowed(groups: seq<seq<int>>, m: Attempts, key: string, now: int, later: int, rules: Rules)
    returns (more: seq<seq<int>>)
    requires Tracks(groups, m, key, now, rules) && now <= later && rules.limit >= 1 && rules.window >= 1
    requires Allow(m, key, now, rules).1.Allowed?
    ensures Tracks(more, Allow(m, key, now, rules).0, key, later, rules)
    ensures Flatten(more) == Flatten(groups) + [now]
  {
    AllowedWindow(m, key, now, rules);
    assert groups != [] ==> groups[|groups| - 1] != [];
    hide Grouped, Flatten, Allow;
    if key in m && !Expired(m[key], now, rules) {
      JoinsGroup(groups, now, rules);
      FlattenJoined(groups, now);
      more := groups[..|groups| - 1] + [groups[|groups| - 1] + [now]];
    } else {
      OpensGroup(groups, now, rules);
      more := groups + [[now]];
      FlattenOpened(groups, now);
    }
  }

  lemma AllowedWindow(m: Attempts, key: string, now: int, rules: Rules)
    requires Allow(m, key, now, rules).1.Allowed?
    ensures var next := Allow(m, key, now, rules).0;
      && key in next
      && if key in m && !Expired(m[key], now, rules)
         then m[key].count < rules.limit && next[key] == Window(m[key].started, m[key].count + 1)
         else next[key] == Window(now, 1)
  {
  }

  lemma FlattenOpened(groups: seq<seq<int>>, now: int)
    ensures Flatten(groups + [[now]]) == Flatten(groups) + [now]
  {
    assert (groups + [[now]])[..|groups|] == groups;
  }

  lemma FlattenJoined(groups: seq<seq<int>>, now: int)
    requires groups != []
    ensures Flatten(groups[..|groups| - 1] + [groups[|groups| - 1] + [now]]) == Flatten(groups) + [now]
  {
    var n := |groups| - 1;
    var more := groups[..n] + [groups[n] + [now]];
    assert more[..n] == groups[..n];
    assert Flatten(groups[..n]) + (groups[n] + [now]) == Flatten(groups[..n]) + groups[n] + [now];
  }

  lemma JoinsGroup(groups: seq<seq<int>>, now: int, rules: Rules)
    requires Grouped(groups, rules) && groups != []
    requires var g := groups[|groups| - 1]; g[0] <= now < g[0] + rules.window && |g| < rules.limit
    ensures Grouped(groups[..|groups| - 1] + [groups[|groups| - 1] + [now]], rules)
  {
    var g := groups[|groups| - 1];
    assert Within(g + [now], rules.window);
  }

  lemma OpensGroup(groups: seq<seq<int>>, now: int, rules: Rules)
    requires Grouped(groups, rules) && rules.limit >= 1 && rules.window >= 1
    requires groups != [] ==> groups[|groups| - 1][0] + rules.window <= now
    ensures Grouped(groups + [[now]], rules)
  {
  }

  lemma {:induction false} NoneFromEarlierGroups(groups: seq<seq<int>>, from: int, rules: Rules)
    requires Grouped(groups, rules)
    requires groups != [] ==> groups[|groups| - 1][0] + rules.window <= from
    ensures CountIn(Flatten(groups), from, rules.window) == 0
    decreases |groups|
  {
    if groups != [] {
      var front, g := groups[..|groups| - 1], groups[|groups| - 1];
      NoneFromEarlierGroups(front, from, rules);
      CountConcat(Flatten(front), g, from, rules.window);
      assert Within(g, rules.window);
      CountNoMore(g, from, rules.window);
    }
  }

  // From groups that start before the interval at most `limit - 1` times fall into it.
  lemma FewFromStartedGroups(groups: seq<seq<int>>, from: int, rules: Rules)
    requires Grouped(groups, rules) && rules.limit >= 1
    requires groups != [] ==> groups[|groups| - 1][0] < from
    ensures CountIn(Flatten(groups), from, rules.window) <= rules.limit - 1
  {
    if groups != [] {
      var front, g := groups[..|groups| - 1], groups[|groups| - 1];
      NoneFromEarlierGroups(front, from, rules);
      CountConcat(Flatten(front), g, from, rules.window);
      CountNoMore(g, from, rules.window);
    }
  }

  lemma {:induction false} GroupsBoundIntervals(groups: seq<seq<int>>, from: int, rules: Rules)
    requires Grouped(groups, rules) && rules.limit >= 1
    ensures CountIn(Flatten(groups), from, rules.window) <= 2 * rules.limit - 1
    decreases |groups|
  {
    if groups != [] {
      var front, g := groups[..|groups| - 1], groups[|groups| - 1];
      CountConcat(Flatten(front), g, from, rules.window);
      CountNoMore(g, from, rules.window);
      if g[0] < from {
        FewFromStartedGroups(groups, from, rules);
      } else if g[0] < from + rules.window {
        FewFromStartedGroups(front, from, rules);
      } else {
        assert Within(g, rules.window);
        NoneLater(g, from, rules.window);
        GroupsBoundIntervals(front, from, rules);
      }
    }
  }

  lemma {:induction false} NoneLater(times: seq<int>, from: int, window: nat)
    requires forall i | 0 <= i < |times| :: times[i] >= from + window
    ensures CountIn(times, from, window) == 0
    decreases |times|
  {
    if times != [] {
      NoneLater(times[..|times| - 1], from, window);
    }
  }

  /** Whatever else happens, no interval of one window's length admits more than
      `2 * limit - 1` attempts with a key that is not reset. */
  lemma AttemptsPerWindow(calls: seq<Call>, key: string, rules: Rules, from: int)
    requires Clocked(calls) && rules.limit >= 1 && rules.window >= 1
    requires forall c | c in calls && c.Reset? :: c.key != key
    ensures CountIn(AllowedTimes(calls, key, rules), from, rules.window) <= 2 * rules.limit - 1
  {
    var groups := TimesAreGrouped(calls, key, rules, if calls == [] then 0 else calls[|calls| - 1].now);
    GroupsBoundIntervals(groups, from, rules);
  }

  /** With the rules of the login limiter: at most nine passwords per key and quarter hour, and
      never more than ten thousand keys. */
  lemma LoginAttemptsPerQuarterHour(calls: seq<Call>, key: string, from: int)
    requires Clocked(calls) && forall c | c in calls && c.Reset? :: c.key != key
    ensures CountIn(AllowedTimes(calls, key, LOGIN_RULES), from, 900_000_000_000) <= 9
    ensures |StateAfter(calls, LOGIN_RULES)| <= 10_000
  {
    AttemptsPerWindow(calls, key, LOGIN_RULES, from);
    RunStaysBounded(calls, LOGIN_RULES);
  }

  lemma {:induction false} RunStaysBounded(calls: seq<Call>, rules: Rules)
    ensures |StateAfter(calls, rules)| <= rules.maxKeys
    decreases |calls|
  {
    if calls != [] {
      var before, last := StateAfter(calls[..|calls| - 1], rules), calls[|calls| - 1];
      RunStaysBounded(calls[..|calls| - 1], rules);
      if last.Attempt? {
        StaysBounded(before, last.key, last.now, rules);
      } else {
        SubsetSize((before - {last.key}).Keys, before.Keys);
        assert |before - {last.key}| == |(before - {last.key}).Keys| && |before| == |before.Keys|;
      }
    }
  }
}
