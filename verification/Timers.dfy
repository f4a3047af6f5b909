/** The tick-driven timer registry. */
module Timers {
  import opened Wrappers

  const MILLIS_PER_TICK: int := 12
  const NULL_COOKIE: nat := 0

  // ---------------------------------------------------------------- one service, as a value

  datatype Timer = Timer(interval: int, periodic: bool, ticksLeft: nat)

  /** Ticks from a start to the expiry: 1 + interval / 12, or 1 for a negative interval. */
  function Period(interval: int): (p: nat)
    ensures p >= 1
    ensures if interval < 0 then p == 1 else 12 * (p - 1) <= interval < 12 * p
  {
    if interval >= 0 then 1 + interval / MILLIS_PER_TICK else 1
  }

  function Started(t: Timer): Timer { t.(ticksLeft := Period(t.interval)) }

  predicate Expires(t: Timer) { t.ticksLeft == 1 }

  /** One turn of the clock for one registered service. */
  function Ticked(t: Timer): Timer {
    if t.ticksLeft == 0 then t
    else if t.ticksLeft > 1 then t.(ticksLeft := t.ticksLeft - 1)
    else if t.periodic then Started(t)
    else t.(ticksLeft := 0)
  }

  function TickedTimes(t: Timer, n: nat): Timer {
    if n == 0 then t else Ticked(TickedTimes(t, n - 1))
  }

  /** A period is the shortest whole number of ticks that outlasts the interval. */
  lemma PeriodOutlastsInterval(interval: int)
    requires interval >= 0
    ensures interval < 12 * Period(interval) <= interval + 12
  {
  }

  /** A started periodic service expires on the ticks that are multiples of its period,
      and on no other. */
  lemma {:induction false} PeriodicExactly(t: Timer, n: nat)
    requires t.periodic
    ensures var p := Period(t.interval);
            TickedTimes(Started(t), n) == t.(ticksLeft := p - n % p)
    ensures Expires(TickedTimes(Started(t), n)) <==> (n + 1) % Period(t.interval) == 0
  {
    var p := Period(t.interval);
    if n > 0 {
      PeriodicExactly(t, n - 1);
      NextResidue(n - 1, p);
    } else {
      ZeroResidue(p);
    }
    NextResidue(n, p);
  }

  lemma ZeroResidue(p: nat)
    requires p > 0
    ensures 0 % p == 0
  {
  }

  lemma NextResidue(n: nat, p: nat)
    requires p > 0
    ensures (n + 1) % p == if n % p == p - 1 then 0 else n % p + 1
  {
    var q, r := n / p, n % p;
    assert n == p * q + r;
    if r == p - 1 {
      assert n + 1 == p * (q + 1);
      Residue(n + 1, p, q + 1, 0);
    } else {
      Residue(n + 1, p, q, r + 1);
    }
  }

  lemma Residue(n: nat, p: nat, q: nat, r: nat)
    requires 0 <= r < p && n == p * q + r
    ensures n % p == r
  {
    var d := n / p - q;
    assert p * d == r - n % p;
    SmallMultiple(p, d);
  }

  lemma SmallMultiple(p: nat, d: int)
    requires p > 0 && 0 < p * d + p < 2 * p
    ensures d == 0
  {
  }

  /** A started one-shot service expires on the tick of its period and never again. */
  lemma {:induction false} OneShotExactly(t: Timer, n: nat)
    requires !t.periodic
    ensures var p := Period(t.interval);
            TickedTimes(Started(t), n) == t.(ticksLeft := if n < p then p - n else 0)
    ensures Expires(TickedTimes(Started(t), n)) <==> n + 1 == Period(t.interval)
  {
    if n > 0 {
      OneShotExactly(t, n - 1);
    }
  }

  // ---------------------------------------------------------------- the registry, as a value

  /** `now` counts ticks; `fired` has a (tick, cookie) pair for every callback so far. */
  datatype Registry = Registry(next: nat, now: nat, live: map<nat, Timer>, fired: set<(nat, nat)>)

  datatype Event =
    | Register(interval: int, periodic: bool, start: bool)
    | Start(cookie: nat)
    | Unregister(cookie: nat)
    | Tick

  const EMPTY := Registry(NULL_COOKIE + 1, 0, map[], {})

  function Fresh(interval: int, periodic: bool, start: bool): Timer {
    var t := Timer(interval, periodic, 0);
    if start then Started(t) else t
  }

  function FiringAt(tick: nat, live: map<nat, Timer>): set<(nat, nat)> {
    set c | c in live && Expires(live[c]) :: (tick, c)
  }

  function Step(r: Registry, e: Event): Registry {
    match e
    case Register(interval, periodic, start) =>
      r.(next := r.next + 1, live := r.live[r.next := Fresh(interval, periodic, start)])
    case Start(cookie) =>
      if cookie in r.live then r.(live := r.live[cookie := Started(r.live[cookie])]) else r
    case Unregister(cookie) => r.(live := r.live - {cookie})
    case Tick =>
      r.(now := r.now + 1, live := map c | c in r.live :: Ticked(r.live[c]), fired := r.fired + FiringAt(r.now + 1, r.live))
  }

  function Run(r: Registry, events: seq<Event>): Registry {
    if events == [] then r else Step(Run(r, events[..|events| - 1]), events[|events| - 1])
  }

  ghost predicate Sound(r: Registry) {
    && r.next > NULL_COOKIE
    && (forall c :: c in r.live ==> NULL_COOKIE < c < r.next)
    && (forall f :: f in r.fired ==> f.0 <= r.now && NULL_COOKIE < f.1 < r.next)
  }

  lemma StepSound(r: Registry, e: Event)
    requires Sound(r)
    ensures Sound(Step(r, e)) && r.next <= Step(r, e).next && r.now <= Step(r, e).now && r.fired <= Step(r, e).fired
  {
  }

  lemma {:induction false} RunSound(r: Registry, events: seq<Event>)
    requires Sound(r)
    ensures Sound(Run(r, events)) && r.next <= Run(r, events).next && r.now <= Run(r, events).now
    ensures r.fired <= Run(r, events).fired
  {
    if events != [] {
      RunSound(r, events[..|events| - 1]);
      StepSound(Run(r, events[..|events| - 1]), events[|events| - 1]);
    }
  }

  /** Cookies never repeat: whatever has happened since a registration, the next one gets
      a cookie that no service has had. */
  lemma CookiesNeverRepeat(r: Registry, interval: int, periodic: bool, start: bool, events: seq<Event>)
    requires Sound(r)
    ensures var issued := r.next;
            var later := Run(Step(r, Register(interval, periodic, start)), events);
            issued < later.next && later.next !in later.live
  {
    var after := Step(r, Register(interval, periodic, start));
    StepSound(r, Register(interval, periodic, start));
    RunSound(after, events);
  }

  function TicksIn(events: seq<Event>): nat {
    if events == [] then 0
    else TicksIn(events[..|events| - 1]) + (if events[|events| - 1].Tick? then 1 else 0)
  }

  /** Nobody restarts or unregisters the service of this cookie. */
  ghost predicate LeftAlone(events: seq<Event>, cookie: nat) {
    forall k :: 0 <= k < |events| ==> events[k] != Start(cookie) && events[k] != Unregister(cookie)
  }

  /** The ticks of a run at which the service of a cookie was called back. */
  ghost predicate FiredAt(r: Registry, tick: nat, cookie: nat) { (tick, cookie) in r.fired }

  /** Over any run in which it is left alone, a service just started at tick T counts the
      run's ticks and nothing else. */
  lemma {:induction false} CountsTicks(r: Registry, events: seq<Event>, cookie: nat)
    requires Sound(r) && cookie in r.live && LeftAlone(events, cookie)
    ensures var after := Run(r, events);
            && cookie in after.live && after.now == r.now + TicksIn(events)
            && after.live[cookie] == TickedTimes(r.live[cookie], TicksIn(events))
  {
    if events != [] {
      var front, last := events[..|events| - 1], events[|events| - 1];
      CountsTicks(r, front, cookie);
      RunSound(r, front);
      assert last != Start(cookie) && last != Unregister(cookie);
    }
  }

  /** A tick of the run is in the log for a cookie exactly when the service's countdown,
      taken from the start of the run, expires there. */
  lemma {:induction false} FiresWhenExpired(r: Registry, events: seq<Event>, cookie: nat, tick: nat)
    requires Sound(r) && cookie in r.live && LeftAlone(events, cookie)
    requires r.now < tick <= r.now + TicksIn(events)
    ensures FiredAt(Run(r, events), tick, cookie) <==> Expires(TickedTimes(r.live[cookie], tick - r.now - 1))
    decreases events
  {
    var front, last := events[..|events| - 1], events[|events| - 1];
    var before := Run(r, front);
    RunSound(r, front);
    CountsTicks(r, front, cookie);
    if last.Tick? && tick == before.now + 1 {
      assert (tick, cookie) !in before.fired;
    } else {
      FiresWhenExpired(r, front, cookie, tick);
      assert tick <= before.now;
    }
  }

  /** Exactness. With P ticks to the period, a periodic service started at tick T and left
      alone is called back at T + P, T + 2P, ... and a one-shot at T + P; both at no other
      tick of the run. */
  lemma TimerExactness(r: Registry, cookie: nat, events: seq<Event>, tick: nat)
    requires Sound(r) && cookie in r.live && LeftAlone(events, cookie)
    requires r.now < tick <= r.now + TicksIn(events)
    ensures var t := r.live[cookie];
            FiredAt(Run(Step(r, Start(cookie)), events), tick, cookie) <==>
              if t.periodic then (tick - r.now) % Period(t.interval) == 0
              else tick == r.now + Period(t.interval)
  {
    var t := r.live[cookie];
    var started := Step(r, Start(cookie));
    StepSound(r, Start(cookie));
    FiresWhenExpired(started, events, cookie, tick);
    if t.periodic {
      PeriodicExactly(t, tick - r.now - 1);
    } else {
      OneShotExactly(t, tick - r.now - 1);
    }
  }

  /** A registration that starts the service is a registration followed by a start. */
  lemma RegisterStarts(r: Registry, interval: int, periodic: bool)
    ensures Step(r, Register(interval, periodic, true)) == Step(Step(r, Register(interval, periodic, false)), Start(r.next))
  {
    var quiet := Step(r, Register(interval, periodic, false));
    assert quiet.live[r.next := Started(quiet.live[r.next])] == Step(r, Register(interval, periodic, true)).live;
  }

  /** The same exactness from the registration on, which is how services are started. */
  lemma RegisteredExactness(r: Registry, interval: int, periodic: bool, events: seq<Event>, tick: nat)
    requires Sound(r) && LeftAlone(events, r.next) && r.now < tick <= r.now + TicksIn(events)
    ensures FiredAt(Run(Step(r, Register(interval, periodic, true)), events), tick, r.next) <==>
              if periodic then (tick - r.now) % Period(interval) == 0
              else tick == r.now + Period(interval)
  {
    RegisterStarts(r, interval, periodic);
    StepSound(r, Register(interval, periodic, false));
    TimerExactness(Step(r, Register(interval, periodic, false)), r.next, events, tick);
  }

  /** A service that is not registered is never called back. */
  lemma {:induction false} UnregisteredNeverFires(r: Registry, events: seq<Event>, cookie: nat, tick: nat)
    requires Sound(r) && cookie !in r.live && NULL_COOKIE < cookie < r.next && tick > r.now
    ensures !FiredAt(Run(r, events), tick, cookie) && cookie !in Run(r, events).live
  {
    if events != [] {
      UnregisteredNeverFires(r, events[..|events| - 1], cookie, tick);
      RunSound(r, events[..|events| - 1]);
    }
  }

  // ---------------------------------------------------------------- wake-ups

  /** What happens to a service with a flag: something in the registry, or its owner reads
      the flag and resets it. */
  datatype Action = Do(event: Event) | Poll

  /** The registry, the flag of one service, and how many polls have found it set. */
  datatype Watched = Watched(reg: Registry, up: bool, wakeups: nat)

  predicate ExpiresIn(r: Registry, e: Event, cookie: nat) {
    e.Tick? && cookie in r.live && Expires(r.live[cookie])
  }

  function WatchStep(w: Watched, cookie: nat, a: Action): Watched {
    match a
    case Do(e) => Watched(Step(w.reg, e), w.up || ExpiresIn(w.reg, e, cookie), w.wakeups)
    case Poll => Watched(w.reg, false, w.wakeups + if w.up then 1 else 0)
  }

  /** `first` is the flag that the service was made with. */
  function Watch(r: Registry, first: bool, cookie: nat, actions: seq<Action>): Watched {
    if actions == [] then Watched(r, first, 0)
    else WatchStep(Watch(r, first, cookie, actions[..|actions| - 1]), cookie, actions[|actions| - 1])
  }

  /** The callbacks of one service. */
  function Callbacks(r: Registry, cookie: nat): set<(nat, nat)> {
    set f | f in r.fired && f.1 == cookie
  }

  lemma CallbackStep(r: Registry, e: Event, cookie: nat)
    requires Sound(r)
    ensures Callbacks(Step(r, e), cookie) == Callbacks(r, cookie) + (if ExpiresIn(r, e, cookie) then {(r.now + 1, cookie)} else {})
    ensures (r.now + 1, cookie) !in Callbacks(r, cookie)
  {
  }

  /** The wake-ups of the owner, with the one that is still pending, are at most the
      callbacks of the service in the run, and one more if the flag was set at first. */
  lemma {:induction false} NoSpuriousWakeups(r: Registry, first: bool, cookie: nat, actions: seq<Action>)
    requires Sound(r)
    ensures var w := Watch(r, first, cookie, actions);
            && Sound(w.reg)
            && w.wakeups + (if w.up then 1 else 0) + |Callbacks(r, cookie)| <= |Callbacks(w.reg, cookie)| + (if first then 1 else 0)
  {
    if actions != [] {
      var front, last := actions[..|actions| - 1], actions[|actions| - 1];
      NoSpuriousWakeups(r, first, cookie, front);
      if last.Do? {
        var before := Watch(r, first, cookie, front).reg;
        StepSound(before, last.event);
        CallbackStep(before, last.event, cookie);
      }
    }
  }

  function Events(actions: seq<Action>): seq<Event> {
    if actions == [] then []
    else Events(actions[..|actions| - 1]) + (match actions[|actions| - 1] case Do(e) => [e] case Poll => [])
  }

  lemma RunNext(r: Registry, actions: seq<Action>)
    requires actions != []
    ensures var before := Run(r, Events(actions[..|actions| - 1]));
            Run(r, Events(actions)) == match actions[|actions| - 1] case Do(e) => Step(before, e) case Poll => before
  {
    hide Step;
    var front, last := Events(actions[..|actions| - 1]), actions[|actions| - 1];
    if last.Do? {
      assert Events(actions) == front + [last.event];
      assert (front + [last.event])[..|front|] == front;
    } else {
      assert Events(actions) == front;
    }
  }

  /** Polling does not touch the registry. */
  lemma {:induction false} WatchRuns(r: Registry, first: bool, cookie: nat, actions: seq<Action>)
    ensures Watch(r, first, cookie, actions).reg == Run(r, Events(actions))
  {
    if actions != [] {
      var front, last := actions[..|actions| - 1], actions[|actions| - 1];
      WatchRuns(r, first, cookie, front);
      RunNext(r, actions);
    }
  }

  /** The tick of the last poll; the tick at which the run began if there is none. */
  function LastPoll(r: Registry, actions: seq<Action>): nat {
    if actions == [] then r.now
    else
      var front := actions[..|actions| - 1];
      if actions[|actions| - 1].Poll? then Run(r, Events(front)).now else LastPoll(r, front)
  }

  /** No wake-up is lost, only coalesced: the flag is set exactly when the service has been
      called back after the last poll, or when it was set at first and no poll has been. */
  lemma {:induction false} NoLostWakeups(r: Registry, first: bool, cookie: nat, actions: seq<Action>)
    requires Sound(r)
    ensures Watch(r, first, cookie, actions).up <==>
              || (first && Poll !in actions)
              || exists tick :: tick > LastPoll(r, actions) && FiredAt(Run(r, Events(actions)), tick, cookie)
  {
    hide Step, Run, Events, Sound, FiredAt;
    if actions == [] {
      NothingSince(r, r.now, cookie);
      RunNothing(r);
    } else {
      var front, last := actions[..|actions| - 1], actions[|actions| - 1];
      var before := Run(r, Events(front));
      assert actions == front + [last];
      WatchRuns(r, first, cookie, front);
      RunNext(r, actions);
      RunSound(r, Events(front));
      NoLostWakeups(r, first, cookie, front);
      if last.Do? {
        LastPollPast(r, front);
        FiredStep(before, last.event, cookie);
        assert LastPoll(r, actions) == LastPoll(r, front) && (Poll in actions <==> Poll in front);
        assert ExpiresIn(before, last.event, cookie) ==> FiredAt(Run(r, Events(actions)), before.now + 1, cookie);
      } else {
        NothingSince(before, before.now, cookie);
      }
    }
  }

  lemma RunNothing(r: Registry)
    ensures Run(r, Events([])) == r
  {
  }

  lemma NothingSince(r: Registry, tick: nat, cookie: nat)
    requires Sound(r) && tick >= r.now
    ensures !exists later :: later > tick && FiredAt(r, later, cookie)
  {
  }

  lemma {:induction false} LastPollPast(r: Registry, actions: seq<Action>)
    requires Sound(r)
    ensures LastPoll(r, actions) <= Run(r, Events(actions)).now
  {
    RunSound(r, Events(actions));
    if actions != [] {
      var front, last := actions[..|actions| - 1], actions[|actions| - 1];
      LastPollPast(r, front);
      RunNext(r, actions);
      if last.Do? {
        RunSound(r, Events(front));
        StepSound(Run(r, Events(front)), last.event);
      }
    }
  }

  lemma FiredStep(r: Registry, e: Event, cookie: nat)
    requires Sound(r)
    ensures forall tick :: FiredAt(Step(r, e), tick, cookie) <==> FiredAt(r, tick, cookie) || (ExpiresIn(r, e, cookie) && tick == r.now + 1)
  {
  }

  // ---------------------------------------------------------------- the registry, as an object

  /** A service that sets a flag on expiry, read and reset by its owner. */
  class Service {
    const interval: int
    const periodic: bool
    var cookie: nat
    var ticksLeft: nat
    var expired: bool

    constructor (interval: int, periodic: bool, expired: bool)
      ensures this.interval == interval && this.periodic == periodic && this.expired == expired
      ensures cookie == NULL_COOKIE && ticksLeft == 0
    {
      this.interval, this.periodic, this.expired := interval, periodic, expired;
      cookie, ticksLeft := NULL_COOKIE, 0;
    }

    function View(): Timer
      reads this
    {
      Timer(interval, periodic, ticksLeft)
    }

    method GetAndResetExpired() returns (was: bool)
      modifies this`expired
      ensures was == old(expired) && !expired
    {
      was := expired;
      expired := false;
    }

    method ExpireTrigger()
      modifies this`expired
      ensures expired
    {
      expired := true;
    }
  }

  class TimerTick {
    var nextId: nat
    var services: map<nat, Service>
    ghost var now: nat
    ghost var fired: set<(nat, nat)>

    constructor ()
      ensures Valid() && Model() == EMPTY
    {
      nextId, services := NULL_COOKIE + 1, map[];
      now, fired := 0, {};
    }

    ghost predicate Valid()
      reads this, services.Values
    {
      && (forall c :: c in services ==> services[c].cookie == c)
      && Sound(Model())
    }

    ghost function Model(): Registry
      reads this, services.Values
    {
      Registry(nextId, now, map c | c in services :: services[c].View(), fired)
    }

    /** None when the service already has a cookie: the source throws. A service without
        one is at rest, because only the registry starts services. */
    method Register(s: Service, start: bool) returns (cookie: Option<nat>)
      requires Valid() && (s.cookie == NULL_COOKIE ==> s.ticksLeft == 0)
      modifies this`nextId, this`services, s
      ensures Valid() && s.expired == old(s.expired)
      ensures old(s.cookie) != NULL_COOKIE ==> cookie == None && Model() == old(Model()) && services == old(services)
      ensures old(s.cookie) == NULL_COOKIE ==>
                && cookie == Some(old(nextId)) && s.cookie == old(nextId)
                && services == old(services)[old(nextId) := s]
                && Model() == Step(old(Model()), Event.Register(s.interval, s.periodic, start))
    {
      hide Period, Expires, Ticked;
      if s.cookie != NULL_COOKIE {
        return None;
      }
      ghost var before := Model();
      assert forall c :: c in services ==> c in before.live;
      assert forall c :: c in services ==> services[c] != s;
      StepSound(before, Event.Register(s.interval, s.periodic, start));
      s.cookie := nextId;
      nextId := nextId + 1;
      services := services[s.cookie := s];
      if start {
        StartService(s);
      }
      cookie := Some(s.cookie);
      assert s.View() == Fresh(s.interval, s.periodic, start);
      assert Model().live == before.live[before.next := s.View()];
      assert Model() == Step(old(Model()), Event.Register(s.interval, s.periodic, start));
    }

    method StartService(s: Service)
      modifies s`ticksLeft
      ensures s.View() == Started(old(s.View()))
    {
      if s.interval >= 0 {
        s.ticksLeft := 1 + s.interval / MILLIS_PER_TICK;
      } else {
        s.ticksLeft := 1;
      }
    }

    method Start(cookie: nat) returns (found: bool)
      requires Valid()
      modifies services.Values
      ensures Valid() && services == old(services)
      ensures found == (cookie in services) && Model() == Step(old(Model()), Event.Start(cookie))
      ensures forall c :: c in services ==> services[c].expired == old(services[c].expired)
    {
      if cookie !in services {
        return false;
      }
      StartService(services[cookie]);
      found := true;
    }

    method Unregister(cookie: nat)
      requires Valid()
      modifies this`services, services.Values
      ensures Valid() && Model() == Step(old(Model()), Event.Unregister(cookie))
      ensures services == old(services) - {cookie}
      ensures cookie in old(services) ==> old(services)[cookie].cookie == NULL_COOKIE && old(services)[cookie].ticksLeft == 0
      ensures forall c :: c in old(services) ==> old(services)[c].expired == old(services[c].expired)
    {
      if cookie !in services {
        return;
      }
      StepSound(Model(), Event.Unregister(cookie));
      assert forall c :: c in services && c != cookie ==> services[c] != services[cookie];
      services[cookie].cookie := NULL_COOKIE;
      services[cookie].ticksLeft := 0;
      services := services - {cookie};
      assert Model() == Step(old(Model()), Event.Unregister(cookie));
    }

    /** The mutex-held part of the timer thread's loop. */
    method Tick()
      requires Valid()
      modifies this`now, this`fired, services.Values
      ensures Valid() && services == old(services)
      ensures Model() == Step(old(Model()), Event.Tick)
      ensures forall c :: c in services ==> services[c].expired == (old(services[c].expired) || Expires(old(services[c].View())))
    {
      hide Ticked, Expires, FiringAt;
      ghost var before := Model();
      assert forall c :: c in services ==> c in before.live;
      TickServices();
      fired := fired + FiringAt(now + 1, before.live);
      now := now + 1;
      StepSound(before, Event.Tick);
      assert Model().live == Step(before, Event.Tick).live;
    }

    /** Every registered service, in whatever order the registry yields them. */
    method TickServices()
      requires forall c :: c in services ==> services[c].cookie == c != NULL_COOKIE
      modifies services.Values
      ensures forall c :: c in services ==> services[c].cookie == c
      ensures forall c :: c in services ==> services[c].View() == Ticked(old(services[c].View()))
      ensures forall c :: c in services ==> services[c].expired == (old(services[c].expired) || Expires(old(services[c].View())))
    {
      var todo := services.Keys;
      while todo != {}
        invariant todo <= services.Keys
        invariant forall c :: c in services ==> services[c].cookie == c != NULL_COOKIE
        invariant forall c :: c in todo ==> services[c].View() == old(services[c].View()) && services[c].expired == old(services[c].expired)
        invariant forall c :: c in services && c !in todo ==>
                    services[c].View() == Ticked(old(services[c].View())) &&
                    services[c].expired == (old(services[c].expired) || Expires(old(services[c].View())))
        decreases todo
      {
        var c :| c in todo;
        todo := todo - {c};
        TickService(services[c]);
      }
    }

    method TickService(s: Service)
      requires s.cookie != NULL_COOKIE
      modifies s`ticksLeft, s`expired
      ensures s.View() == Ticked(old(s.View()))
      ensures s.expired == (old(s.expired) || Expires(old(s.View())))
    {
      if s.ticksLeft > 0 {
        s.ticksLeft := s.ticksLeft - 1;
        if s.ticksLeft == 0 {
          s.ExpireTrigger();
          if s.periodic && s.cookie != NULL_COOKIE {
            StartService(s);
          }
        }
      }
    }
  }

  // ---------------------------------------------------------------- a service and its owner

  /** One action on the objects, for the service `s` that was given `cookie`. */
  method Act(t: TimerTick, s: Service, ghost cookie: nat, a: Action) returns (woken: bool)
    requires t.Valid() && Attached(t, s, cookie)
    modifies t, t.services.Values, s
    ensures t.Valid() && Attached(t, s, cookie) && fresh(t.services.Values - old(t.services.Values))
    ensures Watched(t.Model(), s.expired, if woken then 1 else 0) == WatchStep(Watched(old(t.Model()), old(s.expired), 0), cookie, a)
  {
    woken := false;
    match a {
      case Poll => woken := s.GetAndResetExpired();
      case Do(Register(interval, periodic, start)) =>
        var other := new Service(interval, periodic, false);
        var _ := t.Register(other, start);
      case Do(Start(c)) => var _ := t.Start(c);
      case Do(Unregister(c)) => t.Unregister(c);
      case Do(Tick) => t.Tick();
    }
  }

  /** The cookie is the service's or has been given back; it is no other's. */
  ghost predicate Attached(t: TimerTick, s: Service, cookie: nat)
    reads t, s
  {
    && NULL_COOKIE < cookie < t.nextId
    && if cookie in t.services then t.services[cookie] == s else s !in t.services.Values
  }

  /** A service that is registered, and its owner's polls: over any run of calls and ticks,
      the objects do what Watch says, so the wake-ups that the owner sees are bounded by
      the callbacks in the registry's log. */
  method Attend(t: TimerTick, s: Service, actions: seq<Action>) returns (wakeups: nat)
    requires t.Valid() && s.cookie in t.services && t.services[s.cookie] == s
    modifies t, t.services.Values
    ensures t.Valid()
    ensures Watched(t.Model(), s.expired, wakeups) == Watch(old(t.Model()), old(s.expired), old(s.cookie), actions)
    ensures wakeups + |Callbacks(old(t.Model()), old(s.cookie))| <=
              |Callbacks(t.Model(), old(s.cookie))| + (if old(s.expired) then 1 else 0)
  {
    ghost var r, first, cookie := t.Model(), s.expired, s.cookie;
    assert cookie in r.live;
    wakeups := 0;
    for i := 0 to |actions|
      invariant t.Valid() && Attached(t, s, cookie) && fresh(t.services.Values - old(t.services.Values))
      invariant Watched(t.Model(), s.expired, wakeups) == Watch(r, first, cookie, actions[..i])
    {
      var woken := Act(t, s, cookie, actions[i]);
      if woken {
        wakeups := wakeups + 1;
      }
      assert actions[..i + 1][..i] == actions[..i];
    }
    assert actions[..|actions|] == actions;
    NoSpuriousWakeups(r, first, cookie, actions);
  }
}
