/** Health and power: the player's pools, the target dummies, what casts cost, and the combat-log amounts.
    Time is in milliseconds. */
module Pools {
  import opened Bytes

  const POOL_BASE: int := 60
  const HEALTH_PER_LEVEL: int := 180
  const MANA_PER_LEVEL: int := 55
  const FIXED_POWER: int := 100
  const POWER_MANA: nat := 0
  const DUMMY_HEALTH: int := 200000
  const DUMMY_RESET: int := 10000

  datatype Vitals = Vitals(hp: int, power: int)
  datatype Dummy = Dummy(hp: int, maxhp: int, hit: int)

  /** `vitals` is the remembered unit state, seeded on first use. */
  datatype State = State(level: int, powerType: nat, vitals: Option<Vitals>, dummies: map<nat, Dummy>)

  datatype Who = Player | Target(guid: nat)

  /** The numbers behind the player's two bars, and which power the second one is. */
  datatype Bars = Bars(hp: int, maxhp: int, powerType: nat, power: int, maxpower: int)

  /** What the client is sent: the two combat-log lines, the player's bars by an update or with the player object
      itself, the power type of a new class, a dummy's health, a dummy created, the health of the dummies a rest
      restored, and all dummies destroyed. */
  datatype Event =
    | Harmed(who: Who, amount: nat, overkill: nat)
    | Healed(who: Who, amount: nat, overheal: nat)
    | Pushed(bars: Bars)
    | Entered(bars: Bars)
    | Typed(powerType: nat)
    | HealthSent(guid: nat, hp: int)
    | Created(guid: nat, hp: int)
    | Restored(guids: set<nat>)
    | Destroyed

  function Min(a: int, b: int): int { if a <= b then a else b }
  function Max(a: int, b: int): int { if a >= b then a else b }

  function MaxHealth(s: State): int {
    POOL_BASE + HEALTH_PER_LEVEL * Max(1, s.level)
  }

  function MaxPower(s: State): int {
    if s.powerType != POWER_MANA then FIXED_POWER else POOL_BASE + MANA_PER_LEVEL * Max(1, s.level)
  }

  /** `unit_state`: full on first use, and never above the maxima a level or class change may have lowered. */
  function Seen(s: State): Vitals {
    match s.vitals
    case None => Vitals(MaxHealth(s), MaxPower(s))
    case Some(v) => Vitals(Min(v.hp, MaxHealth(s)), Min(v.power, MaxPower(s)))
  }

  function BarsOf(s: State): Bars {
    Bars(Seen(s).hp, MaxHealth(s), s.powerType, Seen(s).power, MaxPower(s))
  }

  function Touch(s: State): State {
    s.(vitals := Some(Seen(s)))
  }

  /** The unit an effect aimed at `guid` moves: a dummy, or else the player. */
  function Aim(s: State, guid: nat): Who {
    if guid in s.dummies then Target(guid) else Player
  }

  function HealthOf(s: State, who: Who): Option<int> {
    match who
    case Player => Some(Seen(s).hp)
    case Target(g) => if g in s.dummies then Some(s.dummies[g].hp) else None
  }

  function MaxOf(s: State, who: Who): int {
    match who
    case Player => MaxHealth(s)
    case Target(g) => if g in s.dummies then s.dummies[g].maxhp else 0
  }

  // ---- the operations ----------------------------------------------------------------

  datatype SpellCost = SpellCost(powerType: int, flat: nat, percent: nat)

  /** A flat cost and a percentage of the full pool; a spell of another power type is free. */
  function PowerCost(s: State, c: SpellCost): (cost: nat) {
    if c.powerType != s.powerType then 0 else c.flat + Percent(c.percent, MaxPower(s))
  }

  function Percent(pct: nat, whole: int): nat {
    if whole < 0 then 0 else (pct * whole) / 100
  }

  /** `Read` is whatever looks at the unit state and sends nothing; a class counts for its power type. */
  datatype Op =
    | Read
    | Enter
    | Hit(guid: nat, amount: nat, now: int)
    | Heal(guid: nat, amount: nat)
    | Energize(amount: nat)
    | Cast(cost: SpellCost)
    | Regen
    | DummyTick(now: int)
    | Spawn(guid: nat)
    | Despawn
    | SetLevel(level: int)
    | SetClass(powerType: nat)
    | SetHealth(hp: int)
    | SetPower(power: int)

  function Rested(d: Dummy, now: int): Dummy {
    if d.hp < d.maxhp && now - d.hit >= DUMMY_RESET then d.(hp := d.maxhp) else d
  }

  function AllRested(ds: map<nat, Dummy>, now: int): map<nat, Dummy> {
    map g | g in ds :: Rested(ds[g], now)
  }

  /** The dummies a tick brings back to full health. */
  function Recovering(ds: map<nat, Dummy>, now: int): set<nat> {
    set g | g in ds && Rested(ds[g], now) != ds[g]
  }

  datatype Outcome = Outcome(s: State, events: seq<Event>, ok: bool)

  /** The player's vitals stored, and the bars sent as they then are. */
  function Push(s: State, v: Vitals): Outcome {
    var s' := s.(vitals := Some(v));
    Outcome(s', [Pushed(BarsOf(s'))], true)
  }

  function Step(s: State, op: Op): Outcome {
    var v := Seen(s);
    match op
    case Read => Outcome(Touch(s), [], true)
    case Enter => Outcome(Touch(s), [Entered(BarsOf(s))], true)
    case Hit(g, amount, now) =>
      if g in s.dummies then
        var d := s.dummies[g];
        var hp := Max(0, d.hp - amount);
        Outcome(s.(dummies := s.dummies[g := d.(hp := hp, hit := now)]),
                [Harmed(Target(g), amount, Max(0, amount - d.hp)), HealthSent(g, hp)], true)
      else
        var o := Push(s, v.(hp := Max(0, v.hp - amount)));
        o.(events := [Harmed(Player, amount, Max(0, amount - v.hp))] + o.events)
    case Heal(g, amount) =>
      if g in s.dummies then
        var d := s.dummies[g];
        var healed := Min(amount, d.maxhp - d.hp);
        Outcome(s.(dummies := s.dummies[g := d.(hp := d.hp + healed)]),
                [Healed(Target(g), amount, Max(0, amount - healed)), HealthSent(g, d.hp + healed)], true)
      else
        var healed := Min(amount, MaxHealth(s) - v.hp);
        var o := Push(s, v.(hp := v.hp + healed));
        o.(events := [Healed(Player, amount, Max(0, amount - healed))] + o.events)
    case Energize(amount) => Push(s, v.(power := v.power + Min(amount, MaxPower(s) - v.power)))
    case Cast(c) =>
      var cost := PowerCost(s, c);
      if cost > v.power then Outcome(Touch(s), [], false)
      else if cost == 0 then Outcome(Touch(s), [], true)
      else Push(s, v.(power := v.power - cost))
    case Regen =>
      var full := MaxPower(s);
      if v.power >= full then Outcome(Touch(s), [], false)
      else Push(s, v.(power := Min(full, v.power + Max(1, (full * 4) / 100))))
    case DummyTick(now) =>
      Outcome(s.(dummies := AllRested(s.dummies, now)), [Restored(Recovering(s.dummies, now))], true)
    case Spawn(g) =>
      Outcome(s.(dummies := s.dummies[g := Dummy(DUMMY_HEALTH, DUMMY_HEALTH, 0)]), [Created(g, DUMMY_HEALTH)], true)
    case Despawn => Outcome(s.(dummies := map[]), [Destroyed], true)
    case SetLevel(level) => Outcome(s.(level := Max(1, Min(level, 80))), [], true)
    case SetClass(powerType) => Outcome(s.(powerType := powerType), [Typed(powerType)], true)
    case SetHealth(hp) => Push(s, v.(hp := Max(0, Min(MaxHealth(s), hp))))
    case SetPower(power) => Push(s, v.(power := Max(0, Min(MaxPower(s), power))))
  }

  // ---- bounds ------------------------------------------------------------------------------

  /** Nothing stored is negative, and no dummy exceeds its maximum. The player's stored values may exceed
      maxima that shrank since they were read. */
  predicate Bounded(s: State) {
    && (s.vitals.Some? ==> 0 <= s.vitals.value.hp && 0 <= s.vitals.value.power)
    && (forall g :: g in s.dummies ==> 0 <= s.dummies[g].hp <= s.dummies[g].maxhp == DUMMY_HEALTH)
  }

  lemma StepBounded(s: State, op: Op)
    requires Bounded(s)
    ensures Bounded(Step(s, op).s)
  {
    hide Percent, PowerCost, Seen, MaxHealth, MaxPower;
    SeenInRange(s);
  }

  /** So every pool read through the unit state lies between zero and its maximum. */
  lemma SeenInRange(s: State)
    requires Bounded(s)
    ensures 0 <= Seen(s).hp <= MaxHealth(s) && 0 <= Seen(s).power <= MaxPower(s)
  {}

  // ---- conservation --------------------------------------------------------------------------

  /** A logged amount is the change of the unit's health plus the logged overflow, and there is overflow only
      when the pool is exhausted; the health sent after it is the one left; no other unit's health moves. */
  lemma ReportsConserve(s: State, op: Op, who: Who)
    requires Bounded(s) && (op.Hit? || op.Heal?)
    ensures var o := Step(s, op); var aim := Aim(s, op.guid);
            && |o.events| == 2 && (o.events[0].Harmed? || o.events[0].Healed?) && o.events[0].who == aim
            && o.events[0].amount == op.amount && HealthOf(o.s, aim).Some?
            && var before, after := HealthOf(s, aim).value, HealthOf(o.s, aim).value;
            && (aim.Player? ==>
                  o.events[1] == Pushed(Bars(after, MaxHealth(s), s.powerType, Seen(s).power, MaxPower(s))))
            && (aim.Target? ==> o.events[1] == HealthSent(aim.guid, after))
            && (op.Hit? ==> o.events[0].Harmed? && op.amount == (before - after) + o.events[0].overkill
                            && (o.events[0].overkill > 0 ==> after == 0))
            && (op.Heal? ==> o.events[0].Healed? && op.amount == (after - before) + o.events[0].overheal
                             && (o.events[0].overheal > 0 ==> after == MaxOf(s, aim)))
            && (who != aim ==> HealthOf(o.s, who) == HealthOf(s, who))
            && Seen(o.s).power == Seen(s).power
  {
    hide Percent, PowerCost, MaxPower;
    PowerKept(s, Step(s, op).s);
    SeenInRange(s);
  }

  lemma PowerKept(s: State, t: State)
    requires t.level == s.level && t.powerType == s.powerType
    ensures MaxPower(t) == MaxPower(s) && MaxHealth(t) == MaxHealth(s)
  {}

  /** A cast is charged exactly its cost or refused with nothing changed that a reader could see. */
  lemma CastChargesOrRefuses(s: State, c: SpellCost)
    requires Bounded(s)
    ensures var o := Step(s, Cast(c));
            && o.ok == (PowerCost(s, c) <= Seen(s).power)
            && Seen(o.s) == Seen(s).(power := if o.ok then Seen(s).power - PowerCost(s, c) else Seen(s).power)
            && o.s.dummies == s.dummies && o.s.level == s.level
            && o.events == if o.ok && PowerCost(s, c) > 0 then [Pushed(BarsOf(o.s))] else []
  {
    hide Percent;
    SeenInRange(s);
  }

  function Run(s: State, ops: seq<Op>): Outcome
    decreases |ops|
  {
    if ops == [] then Outcome(s, [], true)
    else
      var o := Step(s, ops[0]);
      var r := Run(o.s, ops[1..]);
      r.(events := o.events + r.events)
  }

  /** The health a client believes dummy g to have, going by the log's amounts or by the health values sent; None
      for a dummy that is not there. */
  function Believed(hp: Option<int>, e: Event, g: nat, log: bool): Option<int> {
    match e
    case Harmed(w, amount, over) => if log && w == Target(g) && hp.Some? then Some(hp.value - (amount - over)) else hp
    case Healed(w, amount, over) => if log && w == Target(g) && hp.Some? then Some(hp.value + (amount - over)) else hp
    case HealthSent(h, v) => if !log && h == g then Some(v) else hp
    case Created(h, v) => if h == g then Some(v) else hp
    case Restored(gs) => if g in gs then Some(DUMMY_HEALTH) else hp
    case Destroyed => None
    case Pushed(_) => hp
    case Entered(_) => hp
    case Typed(_) => hp
  }

  function Replay(hp: Option<int>, events: seq<Event>, g: nat, log: bool): Option<int>
    decreases |events|
  {
    if events == [] then hp else Replay(Believed(hp, events[0], g, log), events[1..], g, log)
  }

  lemma StepReplays(s: State, op: Op, g: nat, log: bool)
    requires Bounded(s)
    ensures Replay(HealthOf(s, Target(g)), Step(s, op).events, g, log) == HealthOf(Step(s, op).s, Target(g))
  {
    hide Percent, Seen, MaxHealth, MaxPower, PowerCost, Replay;
    var hp, es := HealthOf(s, Target(g)), Step(s, op).events;
    ReplayShort(hp, es, g, log);
  }

  lemma ReplayShort(hp: Option<int>, es: seq<Event>, g: nat, log: bool)
    requires |es| <= 2
    ensures Replay(hp, es, g, log)
         == if es == [] then hp
            else if |es| == 1 then Believed(hp, es[0], g, log)
            else Believed(Believed(hp, es[0], g, log), es[1], g, log)
  {
    hide Believed;
    if |es| == 2 {
      var h := Believed(hp, es[0], g, log);
      assert es[1..][0] == es[1] && es[1..][1..] == [];
      assert Replay(h, es[1..], g, log) == Replay(Believed(h, es[1], g, log), [], g, log);
    }
  }

  lemma {:induction false} ReplayConcat(hp: Option<int>, a: seq<Event>, b: seq<Event>, g: nat, log: bool)
    ensures Replay(hp, a + b, g, log) == Replay(Replay(hp, a, g, log), b, g, log)
    decreases |a|
  {
    if a == [] {
      assert a + b == b;
    } else {
      assert (a + b)[1..] == a[1..] + b;
      ReplayConcat(Believed(hp, a[0], g, log), a[1..], b, g, log);
    }
  }

  /** After any sequence of operations every pool is in range, and the log's amounts alone, like the health
      values alone, give every dummy's health. */
  lemma {:induction false} RunBoundedAndReplayed(s: State, ops: seq<Op>, g: nat, log: bool)
    requires Bounded(s)
    ensures var r := Run(s, ops);
            && Bounded(r.s)
            && 0 <= Seen(r.s).hp <= MaxHealth(r.s) && 0 <= Seen(r.s).power <= MaxPower(r.s)
            && Replay(HealthOf(s, Target(g)), r.events, g, log) == HealthOf(r.s, Target(g))
    decreases |ops|
  {
    hide Step, Replay, Seen, HealthOf;
    if ops == [] {
      SeenInRange(s);
      NothingReplayed(HealthOf(s, Target(g)), g, log);
    } else {
      var o := Step(s, ops[0]);
      StepBounded(s, ops[0]);
      StepReplays(s, ops[0], g, log);
      RunBoundedAndReplayed(o.s, ops[1..], g, log);
      ReplayConcat(HealthOf(s, Target(g)), o.events, Run(o.s, ops[1..]).events, g, log);
    }
  }

  // ---- the player's bars -------------------------------------------------------------------------

  datatype Pool = Pool(power: int, max: int)

  /** What the client keeps of the player: health, the power type, and a pool for every type it was sent one of. */
  datatype Screen = Screen(hp: int, maxhp: int, powerType: nat, pools: map<nat, Pool>)

  /** A pool never sent reads as zeros, as every field of an object does. */
  function PoolOf(c: Screen, powerType: nat): Pool {
    if powerType in c.pools then c.pools[powerType] else Pool(0, 0)
  }

  function Drawn(c: Screen): Bars {
    var p := PoolOf(c, c.powerType);
    Bars(c.hp, c.maxhp, c.powerType, p.power, p.max)
  }

  /** A push fills the pool of its type, a class change only says which pool counts, and the player object brings
      nothing but its own. */
  function Update(c: Screen, e: Event): Screen {
    match e
    case Pushed(b) => c.(hp := b.hp, maxhp := b.maxhp, pools := c.pools[b.powerType := Pool(b.power, b.maxpower)])
    case Entered(b) => Screen(b.hp, b.maxhp, b.powerType, map[b.powerType := Pool(b.power, b.maxpower)])
    case Typed(powerType) => c.(powerType := powerType)
    case _ => c
  }

  function Updated(c: Screen, events: seq<Event>): Screen
    decreases |events|
  {
    if events == [] then c else Updated(Update(c, events[0]), events[1..])
  }

  lemma UpdatedShort(c: Screen, es: seq<Event>)
    requires |es| <= 2
    ensures Updated(c, es) == if es == [] then c
                              else if |es| == 1 then Update(c, es[0]) else Update(Update(c, es[0]), es[1])
  {
    hide Update;
    if |es| == 2 {
      var d := Update(c, es[0]);
      assert es[1..][0] == es[1] && es[1..][1..] == [];
      assert Updated(d, es[1..]) == Updated(Update(d, es[1]), []);
    }
  }

  /** Before the run and after each of its operations the client's bars are the character's. */
  predicate AlwaysRight(s: State, c: Screen, ops: seq<Op>)
    decreases |ops|
  {
    Drawn(c) == BarsOf(s)
    && (ops == [] || AlwaysRight(Step(s, ops[0]).s, Updated(c, Step(s, ops[0]).events), ops[1..]))
  }

  /** A level change to another level, or a class change to a power type whose pool on the screen is not the one
      the character now has. */
  predicate Disturbs(s: State, c: Screen, op: Op) {
    match op
    case SetLevel(level) => Max(1, Min(level, 80)) != Max(1, s.level)
    case SetClass(powerType) =>
      var t := s.(powerType := powerType);
      powerType != s.powerType && PoolOf(c, powerType) != Pool(Seen(t).power, MaxPower(t))
    case _ => false
  }

  predicate NeverDisturbed(s: State, c: Screen, ops: seq<Op>)
    decreases |ops|
  {
    ops == [] || (!Disturbs(s, c, ops[0])
                  && NeverDisturbed(Step(s, ops[0]).s, Updated(c, Step(s, ops[0]).events), ops[1..]))
  }

  /** The power type on the screen is always the character's: a class change sends it. */
  lemma StepTyped(s: State, c: Screen, op: Op)
    requires c.powerType == s.powerType
    ensures Updated(c, Step(s, op).events).powerType == Step(s, op).s.powerType
  {
    hide Percent, PowerCost, Updated, Seen, MaxHealth, MaxPower;
    UpdatedShort(c, Step(s, op).events);
  }

  lemma StepRight(s: State, c: Screen, op: Op)
    requires Bounded(s) && Drawn(c) == BarsOf(s)
    ensures var o := Step(s, op); Drawn(Updated(c, o.events)) == BarsOf(o.s) <==> !Disturbs(s, c, op)
  {
    hide Percent, PowerCost, Updated;
    SeenInRange(s);
    UpdatedShort(c, Step(s, op).events);
  }

  /** The bars are right throughout a run exactly if nothing in it disturbs them. */
  lemma {:induction false} RightUndisturbed(s: State, c: Screen, ops: seq<Op>)
    requires Bounded(s) && Drawn(c) == BarsOf(s)
    ensures AlwaysRight(s, c, ops) <==> NeverDisturbed(s, c, ops)
    decreases |ops|
  {
    hide Step, Disturbs, Updated, BarsOf, Drawn;
    if ops != [] {
      var o := Step(s, ops[0]);
      StepBounded(s, ops[0]);
      StepRight(s, c, ops[0]);
      if !Disturbs(s, c, ops[0]) {
        RightUndisturbed(o.s, Updated(c, o.events), ops[1..]);
      }
    }
  }

  /** The operation leaves level and power type, as far as pools depend on them. */
  predicate Unmoved(s: State, op: Op) {
    && (op.SetLevel? ==> Max(1, Min(op.level, 80)) == Max(1, s.level))
    && (op.SetClass? ==> op.powerType == s.powerType)
  }

  lemma StepUnmoved(s: State, c: Screen, op: Op)
    requires c.pools.Keys <= {c.powerType} && c.powerType == s.powerType
    ensures Disturbs(s, c, op) <==> !Unmoved(s, op)
    ensures var o := Step(s, op); var d := Updated(c, o.events);
            Unmoved(s, op) ==>
              && d.pools.Keys <= {d.powerType} && d.powerType == o.s.powerType == s.powerType
              && Max(1, o.s.level) == Max(1, s.level)
  {
    hide Percent, PowerCost, Updated, Seen;
    UpdatedShort(c, Step(s, op).events);
  }

  /** From a world entry on, with one pool on the screen, the bars are right throughout a run exactly if no command
      in it moves the level or the power type. */
  lemma {:induction false} BarsRightExactly(s: State, c: Screen, ops: seq<Op>)
    requires Bounded(s) && Drawn(c) == BarsOf(s) && c.pools.Keys <= {c.powerType}
    ensures AlwaysRight(s, c, ops) <==> forall op :: op in ops ==> Unmoved(s, op)
    decreases |ops|
  {
    hide Step, Disturbs, Updated, BarsOf, Drawn, Unmoved;
    if ops != [] {
      var o := Step(s, ops[0]);
      SameType(s, c);
      StepBounded(s, ops[0]);
      StepRight(s, c, ops[0]);
      StepUnmoved(s, c, ops[0]);
      if Unmoved(s, ops[0]) {
        BarsRightExactly(o.s, Updated(c, o.events), ops[1..]);
        forall op ensures Unmoved(o.s, op) == Unmoved(s, op) {
          MovesAlike(s, o.s, op);
        }
        assert ops == [ops[0]] + ops[1..];
      }
    }
  }

  lemma SameType(s: State, c: Screen)
    requires Drawn(c) == BarsOf(s)
    ensures c.powerType == s.powerType
  {}

  lemma MovesAlike(s: State, t: State, op: Op)
    requires t.powerType == s.powerType && Max(1, t.level) == Max(1, s.level)
    ensures Unmoved(t, op) == Unmoved(s, op)
  {}

  /** A world entry leaves such a screen, whatever was on it before. */
  lemma EntryRight(s: State, c: Screen)
    requires Bounded(s)
    ensures var o := Step(s, Enter); var d := Updated(c, o.events);
            Bounded(o.s) && Drawn(d) == BarsOf(o.s) && d.pools.Keys <= {d.powerType}
  {
    SeenInRange(s);
    UpdatedShort(c, Step(s, Enter).events);
  }

  /** Whatever the bars showed before, every update of them makes all four numbers right. */
  lemma PushMends(s: State, c: Screen, op: Op)
    requires Bounded(s) && c.powerType == s.powerType
    requires exists e :: e in Step(s, op).events && (e.Pushed? || e.Entered?)
    ensures var o := Step(s, op); Drawn(Updated(c, o.events)) == BarsOf(o.s)
  {
    hide Percent, PowerCost, Updated;
    SeenInRange(s);
    UpdatedShort(c, Step(s, op).events);
  }

  // ---- bars that go wrong ------------------------------------------------------------------------

  /** A level-80 mana user just entered at full health and power. */
  function Veteran(): State {
    State(80, POWER_MANA, Some(Vitals(14460, 4460)), map[])
  }

  /** Levels down: the client keeps showing health the character no longer has, and it does not come back. */
  lemma LevelClampIsSilent(c: Screen)
    requires Drawn(c) == BarsOf(Veteran())
    ensures var low, back := Run(Veteran(), [SetLevel(1)]), Run(Veteran(), [SetLevel(1), Read, SetLevel(80)]);
            && low.events == back.events == [] && BarsOf(low.s) == Bars(240, 240, POWER_MANA, 115, 115)
            && BarsOf(back.s) == Bars(240, 14460, POWER_MANA, 115, 4460)
            && Drawn(c) == Bars(14460, 14460, POWER_MANA, 4460, 4460)
  {
    RunThree(Veteran(), SetLevel(1), Read, SetLevel(80));
    RunOne(Veteran(), SetLevel(1));
  }

  /** Levels up: the client shows a full bar where the character has a sixtieth of its health. */
  lemma LevelRaiseIsSilent(c: Screen)
    requires Drawn(c) == Bars(240, 240, POWER_MANA, 115, 115)
    ensures var s := State(1, POWER_MANA, Some(Vitals(240, 115)), map[]);
            var r := Run(s, [SetLevel(80)]);
            && Drawn(c) == BarsOf(s) && r.events == []
            && BarsOf(r.s) == Bars(240, 14460, POWER_MANA, 115, 4460)
  {
    RunOne(State(1, POWER_MANA, Some(Vitals(240, 115)), map[]), SetLevel(80));
  }

  /** A class of another power: the client draws a pool it was never sent, and after the way back the full one of
      before where the character is left with 100. */
  lemma ClassChangeIsSilent(c: Screen, rage: nat)
    requires rage != POWER_MANA && Drawn(c) == BarsOf(Veteran()) && c.pools.Keys <= {POWER_MANA}
    ensures var there := Run(Veteran(), [SetClass(rage)]);
            var back := Run(Veteran(), [SetClass(rage), Read, SetClass(POWER_MANA)]);
            && there.events == [Typed(rage)] && BarsOf(there.s) == Bars(14460, 14460, rage, 100, 100)
            && Drawn(Updated(c, there.events)) == Bars(14460, 14460, rage, 0, 0)
            && BarsOf(back.s) == Bars(14460, 14460, POWER_MANA, 100, 4460)
            && Drawn(Updated(c, back.events)) == Bars(14460, 14460, POWER_MANA, 4460, 4460)
  {
    RunThree(Veteran(), SetClass(rage), Read, SetClass(POWER_MANA));
    RunOne(Veteran(), SetClass(rage));
    UpdatedShort(c, [Typed(rage)]);
    UpdatedShort(c, [Typed(rage), Typed(POWER_MANA)]);
  }

  lemma RunThree(s: State, a: Op, b: Op, c: Op)
    ensures var x := Step(s, a); var y := Step(x.s, b); var z := Step(y.s, c); var r := Run(s, [a, b, c]);
            r.s == z.s && r.events == x.events + y.events + z.events
  {
    hide Step;
    var x := Step(s, a);
    var y := Step(x.s, b);
    assert [a, b, c] == [a] + [b, c] && [b, c] == [b] + [c];
    RunConcat(s, [a], [b, c]);
    RunConcat(x.s, [b], [c]);
    RunOne(s, a);
    RunOne(x.s, b);
    RunOne(y.s, c);
  }

  // ---- runs in pieces ------------------------------------------------------------------------------

  lemma {:induction false} RunConcat(s: State, a: seq<Op>, b: seq<Op>)
    ensures var r := Run(s, a); var t := Run(r.s, b);
            Run(s, a + b) == t.(events := r.events + t.events)
    decreases |a|
  {
    hide Step;
    if a == [] {
      assert a + b == b;
      assert [] + Run(s, b).events == Run(s, b).events;
    } else {
      assert (a + b)[1..] == a[1..] + b;
      var o := Step(s, a[0]);
      RunConcat(o.s, a[1..], b);
      var r := Run(o.s, a[1..]);
      assert o.events + (r.events + Run(r.s, b).events) == (o.events + r.events) + Run(r.s, b).events;
    }
  }

  lemma RunOne(s: State, op: Op)
    ensures Run(s, [op]).s == Step(s, op).s && Run(s, [op]).events == Step(s, op).events
  {
    hide Step;
    assert [op][1..] == [];
    assert Step(s, op).events + [] == Step(s, op).events;
  }

  lemma NothingReplayed(hp: Option<int>, g: nat, log: bool)
    ensures Replay(hp, [], g, log) == hp
  {}

  // ---- the server's unit tables ------------------------------------------------------------------

  class Units {
    var level: int
    var powerType: nat
    var vitals: Option<Vitals>
    var dummies: map<nat, Dummy>
    var events: seq<Event>

    function Value(): State
      reads this
    {
      State(level, powerType, vitals, dummies)
    }

    constructor (level: int, powerType: nat)
      ensures Value() == State(level, powerType, None, map[]) && events == []
    {
      this.level, this.powerType, vitals, dummies, events := level, powerType, None, map[], [];
    }

    method UnitState() returns (v: Vitals)
      modifies this`vitals
      ensures v == Seen(old(Value())) && Value() == Step(old(Value()), Read).s
    {
      var hp, mp := MaxHealth(Value()), MaxPower(Value());
      var st := if vitals.None? then Vitals(hp, mp) else vitals.value;
      st := st.(hp := Min(st.hp, hp));
      st := st.(power := Min(st.power, mp));
      vitals, v := Some(st), st;
    }

    /** `send_power_update`: the bars as they now are. */
    method SendPowerUpdate()
      modifies this`vitals, this`events
      ensures Value() == Touch(old(Value())) && events == old(events) + [Pushed(BarsOf(old(Value())))]
    {
      var st := UnitState();
      events := events + [Pushed(Bars(st.hp, MaxHealth(Value()), powerType, st.power, MaxPower(Value())))];
    }

    /** The player object of a world entry. */
    method EnterWorld()
      modifies this`vitals, this`events
      ensures var o := Step(old(Value()), Enter);
              Value() == o.s && events == old(events) + o.events
    {
      var st := UnitState();
      events := events + [Entered(Bars(st.hp, MaxHealth(Value()), powerType, st.power, MaxPower(Value())))];
    }

    /** Periodic damage: its combat-log line and the health it leaves. */
    method Harm(guid: nat, amount: nat, now: int)
      requires Bounded(Value())
      modifies this
      ensures var o := Step(old(Value()), Hit(guid, amount, now));
              Value() == o.s && events == old(events) + o.events
    {
      if guid in dummies {
        var d := dummies[guid];
        var over := Max(0, amount - d.hp);
        dummies := dummies[guid := Dummy(Max(0, d.hp - amount), d.maxhp, now)];
        events := events + [Harmed(Target(guid), amount, over), HealthSent(guid, dummies[guid].hp)];
      } else {
        var st := UnitState();
        var over := Max(0, amount - st.hp);
        vitals := Some(st.(hp := Max(0, st.hp - amount)));
        events := events + [Harmed(Player, amount, over)];
        SendPowerUpdate();
      }
    }

    method Mend(guid: nat, amount: nat)
      requires Bounded(Value())
      modifies this
      ensures var o := Step(old(Value()), Heal(guid, amount));
              Value() == o.s && events == old(events) + o.events
    {
      if guid in dummies {
        var d := dummies[guid];
        var healed := Min(amount, d.maxhp - d.hp);
        dummies := dummies[guid := d.(hp := d.hp + healed)];
        events := events + [Healed(Target(guid), amount, amount - healed), HealthSent(guid, d.hp + healed)];
      } else {
        var st := UnitState();
        var healed := Min(amount, MaxHealth(Value()) - st.hp);
        vitals := Some(st.(hp := st.hp + healed));
        events := events + [Healed(Player, amount, amount - healed)];
        SendPowerUpdate();
      }
    }

    method GivePower(amount: nat)
      modifies this`vitals, this`events
      ensures var o := Step(old(Value()), Energize(amount));
              Value() == o.s && events == old(events) + o.events
    {
      var st := UnitState();
      var gained := Min(amount, MaxPower(Value()) - st.power);
      vitals := Some(st.(power := st.power + gained));
      SendPowerUpdate();
    }

    /** The cost is checked before anything is sent, and taken only when it can be paid. */
    method PayForCast(c: SpellCost) returns (ok: bool)
      modifies this`vitals, this`events
      ensures var o := Step(old(Value()), Cast(c));
              Value() == o.s && ok == o.ok && events == old(events) + o.events
    {
      var cost := PowerCost(Value(), c);
      var st := UnitState();
      if cost > st.power {
        return false;
      }
      vitals := Some(st.(power := st.power - cost));
      if cost != 0 {
        SendPowerUpdate();
      }
      ok := true;
    }

    method RegenTick() returns (changed: bool)
      modifies this`vitals, this`events
      ensures var o := Step(old(Value()), Regen);
              Value() == o.s && changed == o.ok && events == old(events) + o.events
    {
      var st := UnitState();
      var maxp := MaxPower(Value());
      if st.power >= maxp {
        return false;
      }
      vitals := Some(st.(power := Min(maxp, st.power + Max(1, (maxp * 4) / 100))));
      SendPowerUpdate();
      changed := true;
    }

    /** Dummies left alone for ten seconds heal up. */
    method RestDummies(now: int)
      modifies this
      ensures var o := Step(old(Value()), DummyTick(now));
              Value() == o.s && events == old(events) + o.events
    {
      var todo, restored: set<nat> := dummies.Keys, {};
      while todo != {}
        invariant todo <= old(dummies).Keys == dummies.Keys
        invariant forall g :: g in dummies ==>
                    dummies[g] == if g in todo then old(dummies)[g] else Rested(old(dummies)[g], now)
        invariant restored == Recovering(old(dummies), now) - todo
        invariant level == old(level) && powerType == old(powerType) && vitals == old(vitals) && events == old(events)
        decreases todo
      {
        var g :| g in todo;
        var d := dummies[g];
        if d.hp < d.maxhp && now - d.hit >= DUMMY_RESET {
          dummies := dummies[g := d.(hp := d.maxhp)];
          restored := restored + {g};
        }
        todo := todo - {g};
      }
      assert dummies == AllRested(old(dummies), now);
      assert restored == Recovering(old(dummies), now);
      events := events + [Restored(restored)];
    }

    method SpawnDummy(guid: nat)
      modifies this
      ensures var o := Step(old(Value()), Spawn(guid));
              Value() == o.s && events == old(events) + o.events
    {
      dummies := dummies[guid := Dummy(DUMMY_HEALTH, DUMMY_HEALTH, 0)];
      events := events + [Created(guid, DUMMY_HEALTH)];
    }

    /** Despawning, and the forgetting at login. */
    method ClearDummies()
      modifies this
      ensures var o := Step(old(Value()), Despawn);
              Value() == o.s && events == old(events) + o.events
    {
      dummies := map[];
      events := events + [Destroyed];
    }

    /** `.level`: the level field is sent, and nothing about the pools it resizes. */
    method LevelCommand(wanted: int)
      modifies this`level
      ensures var o := Step(old(Value()), SetLevel(wanted));
              Value() == o.s && events == old(events) + o.events
    {
      level := Max(1, Min(wanted, 80));
    }

    /** `.class`: the power type rides in the dword that is sent, and nothing is sent about the pools. */
    method ClassCommand(wanted: nat)
      modifies this`powerType, this`events
      ensures var o := Step(old(Value()), SetClass(wanted));
              Value() == o.s && events == old(events) + o.events
    {
      powerType := wanted;
      events := events + [Typed(wanted)];
    }

    method HealthCommand(wanted: int)
      modifies this`vitals, this`events
      ensures var o := Step(old(Value()), SetHealth(wanted));
              Value() == o.s && events == old(events) + o.events
    {
      var st := UnitState();
      vitals := Some(st.(hp := Max(0, Min(MaxHealth(Value()), wanted))));
      SendPowerUpdate();
    }

    method PowerCommand(wanted: int)
      modifies this`vitals, this`events
      ensures var o := Step(old(Value()), SetPower(wanted));
              Value() == o.s && events == old(events) + o.events
    {
      var st := UnitState();
      vitals := Some(st.(power := Max(0, Min(MaxPower(Value()), wanted))));
      SendPowerUpdate();
    }
  }
}
