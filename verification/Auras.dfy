/** The aura table of one world entry: application and refresh, polled periodic ticks with catch-up, expiry,
    cancellation, and the client's copy that only replays the update packets. Times are milliseconds. */
module Auras {
  import opened Bytes
  import opened Pools

  const MAX_SLOTS: nat := 56
  const TICK_MIN: int := 100
  const SPELL_EFFECT_SCHOOL_DAMAGE: nat := 2
  const SPELL_EFFECT_APPLY_AURA: nat := 6
  const SPELL_EFFECT_HEAL: nat := 10
  const HARM: set<nat> := {3, 53, 89}
  const HELP: set<nat> := {8, 20}
  const POWER: set<nat> := {21, 24}
  const NEGATIVE: set<nat> := {3, 53, 64, 89, 5, 7, 12, 25, 26, 27, 33}
  const AFLAG_CASTER: nat := 0x08
  const AFLAG_POSITIVE: nat := 0x10
  const AFLAG_DURATION: nat := 0x20
  const AFLAG_NEGATIVE: nat := 0x80

  // ---- the schedule of one tick ------------------------------------------------------

  type Period = p: int | p > 0 witness 1

  /** A periodic effect; `next` is when it is due. */
  datatype Tick = Tick(effect: nat, aura: nat, amount: nat, period: Period, next: int)

  /** The last moment a poll at `now` can pay for. */
  function Limit(now: int, expires: Option<int>): int {
    if expires.Some? then Min(now, expires.value) else now
  }

  /** How often a tick that was due at `next` has become due by `limit`. */
  function Fires(t: Tick, limit: int): nat {
    if t.next > limit then 0 else (limit - t.next) / t.period + 1
  }

  function Advanced(t: Tick, limit: int): Tick {
    t.(next := t.next + Fires(t, limit) * t.period)
  }

  /** Ticks due since `start`, at start + period, start + 2 * period, .. */
  function Due(start: int, period: Period, limit: int): nat {
    if limit < start then 0 else (limit - start) / period
  }

  /** A schedule started at `start` of which n ticks have fired. */
  function Scheduled(t: Tick, start: int, n: nat): Tick {
    t.(next := start + (n + 1) * t.period)
  }

  lemma FiresCompletes(t: Tick, start: int, n: nat, limit: int)
    requires n <= Due(start, t.period, limit) || (n == 0 && limit < start)
    ensures n + Fires(Scheduled(t, start, n), limit) == Due(start, t.period, limit)
    ensures Advanced(Scheduled(t, start, n), limit) == Scheduled(t, start, Due(start, t.period, limit))
  {
    var p, d := t.period, Due(start, t.period, limit);
    var u := Scheduled(t, start, n);
    if limit >= start {
      assert limit - start == d * p + (limit - start) % p;
      assert limit - u.next == (d - n - 1) * p + (limit - start) % p;
      if u.next <= limit {
        ModUnique(limit - u.next, p, d - n - 1, (limit - start) % p);
      } else {
        MulAtLeast(d - n - 1, p);
      }
    } else {
      assert u.next == start + p;
    }
    assert start + (n + 1) * p + (d - n) * p == start + (d + 1) * p;
  }

  /** The fired count and the schedule after a sequence of polls. */
  function Polled(t: Tick, expires: Option<int>, times: seq<int>): (Tick, nat)
    decreases |times|
  {
    if times == [] then (t, 0)
    else
      var limit := Limit(times[0], expires);
      var (u, n) := Polled(Advanced(t, limit), expires, times[1..]);
      (u, Fires(t, limit) + n)
  }

  predicate Ordered(from: int, times: seq<int>)
    decreases |times|
  {
    times == [] || (from <= times[0] && Ordered(times[0], times[1..]))
  }

  function Last(from: int, times: seq<int>): int
    decreases |times|
  {
    if times == [] then from else Last(times[0], times[1..])
  }

  /** After the last of any polls, floor((min(last, expires) - start) / period) ticks have fired in all: when
      and how often the schedule was polled before makes no difference. */
  lemma {:induction false} PollingIsIrrelevant(t: Tick, start: int, expires: Option<int>, from: int, times: seq<int>)
    requires start <= from && Ordered(from, times) && (expires.Some? ==> start <= expires.value)
    ensures var n := Due(start, t.period, Limit(from, expires));
            Polled(Scheduled(t, start, n), expires, times)
              == (Scheduled(t, start, Due(start, t.period, Limit(Last(from, times), expires))),
                  Due(start, t.period, Limit(Last(from, times), expires)) - n)
    decreases |times|
  {
    if times != [] {
      var before, limit := Limit(from, expires), Limit(times[0], expires);
      DueGrows(start, t.period, before, limit);
      FiresCompletes(t, start, Due(start, t.period, before), limit);
      PollingIsIrrelevant(t, start, expires, times[0], times[1..]);
    }
  }

  lemma DueGrows(start: int, p: Period, a: int, b: int)
    requires start <= a <= b
    ensures Due(start, p, a) <= Due(start, p, b)
  {
    var x, y := Due(start, p, a), Due(start, p, b);
    assert a - start == x * p + (a - start) % p && b - start == y * p + (b - start) % p;
    assert x * p - y * p == (x - y) * p;
    MulAtLeast(x - y, p);
  }

  /** A timed aura polled at or after its end has fired floor(duration / period) times, however it was
      polled on the way. */
  lemma WholeDuration(t: Tick, start: int, duration: nat, times: seq<int>)
    requires t.next == start + t.period && Ordered(start, times) && Last(start, times) >= start + duration
    ensures Polled(t, Some(start + duration), times).1 == duration / t.period
  {
    ModUnique(0, t.period, 0, 0);
    assert Scheduled(t, start, 0) == t;
    PollingIsIrrelevant(t, start, Some(start + duration), start, times);
  }

  // ---- the table ---------------------------------------------------------------------------

  /** (target, slot). */
  type Key = (nat, nat)

  datatype Aura = Aura(spell: nat, caster: nat, flags: nat, level: nat, stacks: nat, maxdur: nat, school: nat,
                       expires: Option<int>, ticks: seq<Tick>)

  type Table = map<Key, Aura>

  /** SMSG_AURA_UPDATE: an aura in a slot, or the slot cleared. */
  datatype Update =
    | Show(key: Key, spell: nat, flags: nat, level: nat, stacks: nat, caster: nat, maxdur: nat, remaining: nat)
    | Hide(key: Key)

  /** The client's frame after replaying updates. */
  function Mirror(wire: seq<Update>): map<Key, nat> {
    if wire == [] then map[]
    else
      var m := Mirror(wire[..|wire| - 1]);
      match wire[|wire| - 1]
      case Show(k, spell, _, _, _, _, _, _) => m[k := spell]
      case Hide(k) => m - {k}
  }

  lemma MirrorAppend(wire: seq<Update>, u: Update)
    ensures Mirror(wire + [u]) == match u
                                  case Show(k, spell, _, _, _, _, _, _) => Mirror(wire)[k := spell]
                                  case Hide(k) => Mirror(wire) - {u.key}
  {
    assert (wire + [u])[..|wire|] == wire;
  }

  function Shown(t: Table): map<Key, nat> {
    map k | k in t :: t[k].spell
  }

  /** `limit` is the stack limit Spell.dbc gives a spell. */
  ghost predicate EntryOk(k: Key, a: Aura, limit: nat -> nat) {
    && k.1 < MAX_SLOTS && 1 <= a.stacks <= Max(1, limit(a.spell))
    && forall i :: 0 <= i < |a.ticks| ==> a.ticks[i].aura in HARM + HELP + POWER
  }

  /** One aura per target, spell and caster. */
  ghost predicate OneEach(t: Table) {
    forall k, l :: k in t && l in t && k.0 == l.0 && SameAura(t[k], t[l].spell, t[l].caster) ==> k == l
  }

  ghost predicate TableOk(t: Table, limit: nat -> nat) {
    (forall k :: k in t ==> EntryOk(k, t[k], limit)) && OneEach(t)
  }

  predicate SameAura(a: Aura, spell: nat, caster: nat) {
    a.spell == spell && a.caster == caster
  }

  // ---- application --------------------------------------------------------------------------

  /** One effect column of a spell, with the amount it rolled. */
  datatype Effect = Effect(kind: nat, aura: nat, amplitude: int, rolled: int)

  datatype Spell = Spell(id: nat, effects: seq<Effect>, stackAmount: nat, duration: nat, hideTimer: bool, school: nat)

  function EffectMask(es: seq<Effect>): nat {
    if es == [] then 0
    else
      var n := |es| - 1;
      EffectMask(es[..n]) + (if es[n].kind == SPELL_EFFECT_APPLY_AURA then Pow2(n) else 0)
  }

  function TicksOf(es: seq<Effect>, now: int): (ts: seq<Tick>)
    ensures forall i :: 0 <= i < |ts| ==> ts[i].aura in HARM + HELP + POWER && ts[i].next == now + ts[i].period
  {
    if es == [] then []
    else
      var n := |es| - 1;
      var e := es[n];
      TicksOf(es[..n], now) +
      if e.kind == SPELL_EFFECT_APPLY_AURA && e.amplitude > 0 && e.aura in HARM + HELP + POWER && e.rolled > 0 then
        [Tick(n, e.aura, e.rolled, e.amplitude, now + e.amplitude)]
      else []
  }

  predicate Harmful(es: seq<Effect>) {
    exists i :: 0 <= i < |es| && es[i].kind == SPELL_EFFECT_APPLY_AURA && es[i].aura in NEGATIVE
  }

  predicate Timed(sp: Spell) {
    sp.duration > 0 && !sp.hideTimer
  }

  function Flags(sp: Spell, self: bool): nat {
    EffectMask(sp.effects) + (if self then AFLAG_CASTER else 0)
    + (if Harmful(sp.effects) then AFLAG_NEGATIVE else AFLAG_POSITIVE)
    + (if Timed(sp) then AFLAG_DURATION else 0)
  }

  /** The lowest slot from n up satisfying nothing held, or the recast's own. */
  function FreeFrom(t: Table, target: nat, n: nat): Option<nat>
    requires n <= MAX_SLOTS
    decreases MAX_SLOTS - n
  {
    if n == MAX_SLOTS then None else if (target, n) !in t then Some(n) else FreeFrom(t, target, n + 1)
  }

  function HeldFrom(t: Table, target: nat, spell: nat, caster: nat, n: nat): Option<nat>
    requires n <= MAX_SLOTS
    decreases MAX_SLOTS - n
  {
    if n == MAX_SLOTS then None
    else if (target, n) in t && SameAura(t[(target, n)], spell, caster) then Some(n)
    else HeldFrom(t, target, spell, caster, n + 1)
  }

  /** A recast of the same spell by the same caster takes its old slot, anything else the lowest free one. */
  function SlotFor(t: Table, target: nat, spell: nat, caster: nat): Option<nat> {
    var held := HeldFrom(t, target, spell, caster, 0);
    if held.Some? then held else FreeFrom(t, target, 0)
  }

  lemma {:induction false} SlotFacts(t: Table, target: nat, spell: nat, caster: nat, n: nat)
    requires n <= MAX_SLOTS
    ensures var h := HeldFrom(t, target, spell, caster, n);
            && (h.Some? ==> n <= h.value < MAX_SLOTS && (target, h.value) in t
                            && SameAura(t[(target, h.value)], spell, caster))
            && (h.None? ==> forall s :: n <= s < MAX_SLOTS && (target, s) in t ==>
                              !SameAura(t[(target, s)], spell, caster))
    ensures var f := FreeFrom(t, target, n);
            && (f.Some? ==> n <= f.value < MAX_SLOTS && (target, f.value) !in t
                            && forall s :: n <= s < f.value ==> (target, s) in t)
            && (f.None? ==> forall s :: n <= s < MAX_SLOTS ==> (target, s) in t)
    decreases MAX_SLOTS - n
  {
    if n < MAX_SLOTS {
      SlotFacts(t, target, spell, caster, n + 1);
    }
  }

  /** The slot of an application and the aura that goes there. */
  function Applied(t: Table, sp: Spell, target: nat, caster: nat, level: nat, now: int): Option<(Key, Aura)> {
    var slot := SlotFor(t, target, sp.id, caster);
    if EffectMask(sp.effects) == 0 || slot.None? then None
    else
      var k := (target, slot.value);
      var stacks := if k in t && t[k].spell == sp.id && sp.stackAmount > 0
                    then (if sp.stackAmount < t[k].stacks + 1 then sp.stackAmount else t[k].stacks + 1) else 1;
      Some((k, Aura(sp.id, caster, Flags(sp, target == caster), if level < 1 then 1 else level, stacks,
                    sp.duration, sp.school, if Timed(sp) then Some(now + sp.duration) else None,
                    TicksOf(sp.effects, now))))
  }

  lemma ApplyKeepsTable(t: Table, limit: nat -> nat, sp: Spell, target: nat, caster: nat, level: nat, now: int)
    requires TableOk(t, limit) && limit(sp.id) == sp.stackAmount
    requires Applied(t, sp, target, caster, level, now).Some?
    ensures var (k, a) := Applied(t, sp, target, caster, level, now).value;
            && TableOk(t[k := a], limit)
            && (k in t ==> SameAura(t[k], sp.id, caster))
            && (k !in t ==> a.stacks == 1 && forall s :: 0 <= s < k.1 ==> (target, s) in t)
  {
    hide TicksOf, EffectMask, Flags, HeldFrom, FreeFrom;
    SlotFacts(t, target, sp.id, caster, 0);
    var (k, a) := Applied(t, sp, target, caster, level, now).value;
    if k in t {
      assert EntryOk(k, t[k], limit);
    }
    forall l | l in t && l != k && l.0 == k.0 ensures !SameAura(t[l], a.spell, a.caster) {
      assert EntryOk(l, t[l], limit);
    }
    assert TableOk(t[k := a], limit);
  }

  /** A refusal for want of a slot means the target holds all 56 and none is this spell's. */
  lemma RefusedWhenFull(t: Table, sp: Spell, target: nat, caster: nat, level: nat, now: int)
    requires EffectMask(sp.effects) != 0
    ensures Applied(t, sp, target, caster, level, now).None? <==>
              forall s :: 0 <= s < MAX_SLOTS ==> (target, s) in t && !SameAura(t[(target, s)], sp.id, caster)
  {
    SlotFacts(t, target, sp.id, caster, 0);
  }

  // ---- polling -------------------------------------------------------------------------------

  function AfterPoll(a: Aura, now: int): Aura {
    a.(ticks := seq(|a.ticks|, i requires 0 <= i < |a.ticks| => Advanced(a.ticks[i], Limit(now, a.expires))))
  }

  predicate Expired(a: Aura, now: int) {
    a.expires.Some? && now >= a.expires.value
  }

  /** The table an effective poll leaves: every schedule caught up, every aura past its end gone. */
  function PolledTable(t: Table, now: int): Table {
    map k | k in t && !Expired(t[k], now) :: AfterPoll(t[k], now)
  }

  /** What a session does to the table between packets: an effective poll, a cast, or the removal of one aura. */
  datatype Act =
    | PollAt(now: int)
    | CastOn(sp: Spell, target: nat, caster: nat, level: nat, when: int)
    | Erase(key: Key)

  function Acted(t: Table, e: Act): Table {
    match e
    case PollAt(now) => PolledTable(t, now)
    case CastOn(sp, target, caster, level, now) =>
      var a := Applied(t, sp, target, caster, level, now);
      if a.Some? then t[a.value.0 := a.value.1] else t
    case Erase(key) => t - {key}
  }

  /** How often a tick fires while the aura that holds the key now stays in the table. */
  function Fired(t: Table, f: Fire, es: seq<Act>): nat
    decreases |es|
  {
    if es == [] || f.key !in t then 0
    else (if es[0].PollAt? then FireCount(t, f, es[0].now) else 0) + Fired(Acted(t, es[0]), f, es[1..])
  }

  /** Whether that aura has not left the table. */
  function Stays(t: Table, key: Key, es: seq<Act>): bool
    decreases |es|
  {
    key in t && (es == [] || Stays(Acted(t, es[0]), key, es[1..]))
  }

  /** Not a recast of this aura, and not its removal. Anything may be done to the others. */
  predicate Spares(e: Act, key: Key, a: Aura) {
    match e
    case PollAt(_) => true
    case CastOn(sp, target, caster, _, _) => !(target == key.0 && SameAura(a, sp.id, caster))
    case Erase(k) => k != key
  }

  function PollsOf(es: seq<Act>): (times: seq<int>)
    decreases |es|
  {
    if es == [] then [] else (if es[0].PollAt? then [es[0].now] else []) + PollsOf(es[1..])
  }

  /** A cast that is no recast takes another slot. */
  lemma OthersLeaveItAlone(t: Table, key: Key, e: Act)
    requires key in t && Spares(e, key, t[key]) && !e.PollAt?
    ensures key in Acted(t, e) && Acted(t, e)[key] == t[key]
  {
    hide TicksOf, EffectMask, Flags, HeldFrom, FreeFrom;
    if e.CastOn? {
      SlotFacts(t, e.target, e.sp.id, e.caster, 0);
    }
  }

  lemma AdvancedPast(t: Tick, limit: int)
    ensures Advanced(t, limit).next > limit
  {
    var p, d := t.period, limit - t.next;
    if d >= 0 {
      assert d == (d / p) * p + d % p;
      assert (d / p + 1) * p == (d / p) * p + p;
    }
  }

  lemma {:induction false} SpentFiresNoMore(t: Tick, end: int, times: seq<int>)
    requires t.next > end
    ensures Polled(t, Some(end), times).1 == 0
    decreases |times|
  {
    if times != [] {
      assert Advanced(t, Limit(times[0], Some(end))) == t;
      SpentFiresNoMore(t, end, times[1..]);
    }
  }

  /** Whatever else is cast, cancelled or expires between the polls, the table's firings are those of the bare
      schedule; and removal loses none, since the last poll before it has brought the schedule to its end. */
  lemma {:induction false} TableFiresSchedule(t: Table, f: Fire, es: seq<Act>)
    requires f.key in t && f.tick < |t[f.key].ticks| && forall e :: e in es ==> Spares(e, f.key, t[f.key])
    ensures Fired(t, f, es) == Polled(t[f.key].ticks[f.tick], t[f.key].expires, PollsOf(es)).1
    ensures (Stays(t, f.key, es) <==> forall now :: now in PollsOf(es) ==> !Expired(t[f.key], now))
    decreases |es|
  {
    hide Fires, Advanced, Applied;
    if es != [] {
      var a, e, t', later := t[f.key], es[0], Acted(t, es[0]), PollsOf(es[1..]);
      if !e.PollAt? {
        OthersLeaveItAlone(t, f.key, e);
        TableFiresSchedule(t', f, es[1..]);
        assert PollsOf(es) == later;
      } else {
        assert PollsOf(es) == [e.now] + later;
        if Expired(a, e.now) {
          AdvancedPast(a.ticks[f.tick], a.expires.value);
          SpentFiresNoMore(Advanced(a.ticks[f.tick], Limit(e.now, a.expires)), a.expires.value, later);
        } else {
          var b := t'[f.key];
          assert b == AfterPoll(a, e.now) && b.ticks[f.tick] == Advanced(a.ticks[f.tick], Limit(e.now, a.expires));
          assert forall x :: x in es[1..] && Spares(x, f.key, a) ==> Spares(x, f.key, b);
          TableFiresSchedule(t', f, es[1..]);
          assert forall now :: Expired(b, now) == Expired(a, now);
        }
      }
    }
  }

  lemma {:induction false} LastPoll(from: int, times: seq<int>)
    requires times != []
    ensures Last(from, times) in times
    decreases |times|
  {
    if |times| > 1 {
      LastPoll(times[0], times[1..]);
    }
  }

  /** So an aura applied at `start` and neither recast nor cancelled fires floor(duration / period) times in
      all, and is gone, once it has been polled at or after its end, whatever else the session does. */
  lemma UncancelledAuraFires(t: Table, f: Fire, start: int, duration: nat, es: seq<Act>)
    requires f.key in t && f.tick < |t[f.key].ticks| && t[f.key].expires == Some(start + duration)
    requires t[f.key].ticks[f.tick].next == start + t[f.key].ticks[f.tick].period
    requires forall e :: e in es ==> Spares(e, f.key, t[f.key])
    requires PollsOf(es) != [] && Ordered(start, PollsOf(es)) && Last(start, PollsOf(es)) >= start + duration
    ensures Fired(t, f, es) == duration / t[f.key].ticks[f.tick].period
    ensures !Stays(t, f.key, es)
  {
    TableFiresSchedule(t, f, es);
    WholeDuration(t[f.key].ticks[f.tick], start, duration, PollsOf(es));
    LastPoll(start, PollsOf(es));
    assert Expired(t[f.key], Last(start, PollsOf(es)));
  }

  /** The unit operation one tick performs. */
  function Effected(target: nat, t: Tick, now: int): Op {
    if t.aura in HELP then Heal(target, t.amount)
    else if t.aura in HARM then Hit(target, t.amount, now)
    else Energize(t.amount)
  }

  /** One firing: which aura, which of its ticks. */
  datatype Fire = Fire(key: Key, tick: nat)

  /** How often a tick fires in the poll of a table. */
  function FireCount(t: Table, f: Fire, now: int): nat {
    if f.key in t && f.tick < |t[f.key].ticks| then
      Fires(t[f.key].ticks[f.tick], Limit(now, t[f.key].expires))
    else 0
  }

  lemma EraseKeepsTable(t: Table, limit: nat -> nat, k: Key)
    requires TableOk(t, limit)
    ensures TableOk(t - {k}, limit)
    ensures Shown(t - {k}) == Shown(t) - {k}
  {
    hide EntryOk;
  }

  lemma ShownPlace(t: Table, k: Key, a: Aura)
    ensures Shown(t[k := a]) == Shown(t)[k := a.spell]
  {}

  lemma RetickKeepsTable(t: Table, limit: nat -> nat, k: Key, i: nat, u: Tick)
    requires TableOk(t, limit) && k in t && i < |t[k].ticks| && u.aura == t[k].ticks[i].aura
    ensures var t' := t[k := t[k].(ticks := t[k].ticks[i := u])];
            TableOk(t', limit) && Shown(t') == Shown(t)
  {
    assert EntryOk(k, t[k], limit);
    var t' := t[k := t[k].(ticks := t[k].ticks[i := u])];
    forall l | l in t' ensures EntryOk(l, t'[l], limit) {
      assert EntryOk(l, t[l], limit);
    }
  }

  lemma FiresUnique(t: Tick, n: nat, limit: int)
    requires t.next + n * t.period > limit
    requires n == 0 || t.next + (n - 1) * t.period <= limit
    ensures n == Fires(t, limit)
  {
    if n > 0 {
      MulAtLeast(n - 1, t.period);
      ModUnique(limit - t.next, t.period, n - 1, limit - t.next - (n - 1) * t.period);
    }
  }

  /** The operation a firing performs, looked up in the table that was polled. */
  function OpOf(t: Table, f: Fire, now: int): Op {
    if f.key in t && f.tick < |t[f.key].ticks| then Effected(f.key.0, t[f.key].ticks[f.tick], now) else Read
  }

  function OpsOf(t: Table, fs: seq<Fire>, now: int): (ops: seq<Op>)
    ensures |ops| == |fs|
  {
    seq(|fs|, i requires 0 <= i < |fs| => OpOf(t, fs[i], now))
  }

  lemma OpsOfConcat(t: Table, a: seq<Fire>, b: seq<Fire>, now: int)
    ensures OpsOf(t, a + b, now) == OpsOf(t, a, now) + OpsOf(t, b, now)
  {}

  function Times(f: Fire, n: nat): (fs: seq<Fire>)
    ensures |fs| == n
  {
    if n == 0 then [] else Times(f, n - 1) + [f]
  }

  lemma {:induction false} TimesCount(f: Fire, n: nat)
    ensures forall g: Fire :: multiset(Times(f, n))[g] == if g == f then n else 0
  {
    if n > 0 {
      TimesCount(f, n - 1);
    }
  }

  /** The units have performed exactly the operations of these firings, in order. */
  ghost predicate Performed(t: Table, fs: seq<Fire>, now: int, before: Pools.State, events: seq<Event>,
                            after: Pools.State, events': seq<Event>) {
    var r := Run(before, OpsOf(t, fs, now));
    after == r.s && events' == events + r.events && Bounded(before) && Bounded(after)
  }

  lemma PerformedNone(t: Table, now: int, s: Pools.State, e: seq<Event>)
    requires Bounded(s)
    ensures Performed(t, [], now, s, e, s, e)
  {
    assert e + [] == e;
  }

  lemma PerformedConcat(t: Table, a: seq<Fire>, b: seq<Fire>, now: int,
                        s0: Pools.State, e0: seq<Event>, s1: Pools.State, e1: seq<Event>,
                        s2: Pools.State, e2: seq<Event>)
    requires Performed(t, a, now, s0, e0, s1, e1) && Performed(t, b, now, s1, e1, s2, e2)
    ensures Performed(t, a + b, now, s0, e0, s2, e2)
  {
    OpsOfConcat(t, a, b, now);
    RunConcat(s0, OpsOf(t, a, now), OpsOf(t, b, now));
    var r1, r2 := Run(s0, OpsOf(t, a, now)), Run(s1, OpsOf(t, b, now));
    assert e0 + r1.events + r2.events == e0 + (r1.events + r2.events);
  }

  lemma PerformedOne(t: Table, f: Fire, now: int, s: Pools.State, e: seq<Event>)
    requires Bounded(s)
    ensures var o := Step(s, OpOf(t, f, now)); Performed(t, [f], now, s, e, o.s, e + o.events)
  {
    hide Step;
    StepBounded(s, OpOf(t, f, now));
    assert OpsOf(t, [f], now) == [OpOf(t, f, now)];
    RunOne(s, OpOf(t, f, now));
  }

  lemma SameOps(was: Table, mid: Table, fs: seq<Fire>, now: int,
                s0: Pools.State, e0: seq<Event>, s1: Pools.State, e1: seq<Event>)
    requires Performed(mid, fs, now, s0, e0, s1, e1)
    requires forall f :: f in fs ==> OpOf(was, f, now) == OpOf(mid, f, now)
    ensures Performed(was, fs, now, s0, e0, s1, e1)
  {
    assert OpsOf(was, fs, now) == OpsOf(mid, fs, now);
  }

  lemma {:induction false} TimesMembers(f: Fire, n: nat)
    ensures forall g :: g in Times(f, n) ==> g == f
  {
    if n > 0 {
      TimesMembers(f, n - 1);
    }
  }

  // ---- what a cast does ----------------------------------------------------------------------------

  /** A direct effect moves a number only if it rolled one. Damage aimed at neither a dummy nor the caster is
      dropped; a heal aimed at no dummy falls to the caster. */
  function DirectOp(e: Effect, dummies: set<nat>, aimed: nat, caster: nat, now: int): seq<Op> {
    if e.rolled <= 0 then []
    else if e.kind == SPELL_EFFECT_SCHOOL_DAMAGE && (aimed in dummies || aimed == caster) then
      [Hit(aimed, e.rolled, now)]
    else if e.kind == SPELL_EFFECT_HEAL then [Heal(aimed, e.rolled)]
    else []
  }

  function DirectOps(es: seq<Effect>, dummies: set<nat>, aimed: nat, caster: nat, now: int): seq<Op> {
    if es == [] then []
    else DirectOps(es[..|es| - 1], dummies, aimed, caster, now) + DirectOp(es[|es| - 1], dummies, aimed, caster, now)
  }

  lemma DirectOpsNext(es: seq<Effect>, n: nat, dummies: set<nat>, aimed: nat, caster: nat, now: int)
    requires n < |es|
    ensures DirectOps(es[..n + 1], dummies, aimed, caster, now)
         == DirectOps(es[..n], dummies, aimed, caster, now) + DirectOp(es[n], dummies, aimed, caster, now)
    ensures EffectMask(es[..n + 1])
         == EffectMask(es[..n]) + (if es[n].kind == SPELL_EFFECT_APPLY_AURA then Pow2(n) else 0)
  {
    assert es[..n + 1][..n] == es[..n];
  }

  /** The units have run these operations. */
  ghost predicate Ran(ops: seq<Op>, before: Pools.State, events: seq<Event>, after: Pools.State, events': seq<Event>) {
    var r := Run(before, ops);
    after == r.s && events' == events + r.events && Bounded(after) && after.dummies.Keys == before.dummies.Keys
  }

  lemma RanMore(ops: seq<Op>, op: Op, s0: Pools.State, e0: seq<Event>, s1: Pools.State, e1: seq<Event>)
    requires Ran(ops, s0, e0, s1, e1) && (op.Hit? || op.Heal?)
    ensures var o := Step(s1, op); Ran(ops + [op], s0, e0, o.s, e1 + o.events)
  {
    hide Step, Run;
    StepBounded(s1, op);
    RunOne(s1, op);
    RunConcat(s0, ops, [op]);
    KeysStay(s1, op);
    var r := Run(s0, ops);
    assert e0 + r.events + Step(s1, op).events == e0 + (r.events + Step(s1, op).events);
  }

  lemma KeysStay(s: Pools.State, op: Op)
    requires op.Hit? || op.Heal?
    ensures Step(s, op).s.dummies.Keys == s.dummies.Keys
  {}

  lemma NoneYet(es: seq<Effect>, dummies: set<nat>, aimed: nat, caster: nat, now: int, s: Pools.State, e: seq<Event>)
    requires Bounded(s)
    ensures Ran(DirectOps(es[..0], dummies, aimed, caster, now), s, e, s, e) && EffectMask(es[..0]) == 0
  {
    assert e + [] == e;
  }

  lemma NoMaskNoAura(t: Table, sp: Spell, target: nat, caster: nat, level: nat, now: int)
    ensures EffectMask(sp.effects) == 0 ==> Applied(t, sp, target, caster, level, now) == None
  {}

  /** The aura half of one world entry. The table is keyed by target and slot at once. */
  class AuraTable {
    const units: Units
    ghost const limit: nat -> nat
    var auras: Table
    var lastTick: int
    var wire: seq<Update>

    /** Slots, stacks and uniqueness are in order, the units' pools are in range, and a client that only
        replays the updates sees the same spell in every slot. */
    ghost predicate Valid()
      reads this, units
    {
      TableOk(auras, limit) && Bounded(units.Value()) && Mirror(wire) == Shown(auras)
    }

    constructor (units: Units, ghost limit: nat -> nat)
      requires Bounded(units.Value())
      ensures Valid() && this.units == units && this.limit == limit && auras == map[] && wire == []
    {
      this.units, this.limit, auras, lastTick, wire := units, limit, map[], 0, [];
    }

    /** `apply_aura`. A target that is neither a dummy nor the caster falls back to the caster. */
    method Apply(sp: Spell, aimed: nat, caster: nat, level: nat, now: int) returns (ok: bool)
      requires Valid() && limit(sp.id) == sp.stackAmount
      modifies this`auras, this`wire
      ensures Valid()
      ensures var target := if aimed in units.dummies then aimed else caster;
              var a := Applied(old(auras), sp, target, caster, level, now);
              && ok == a.Some?
              && auras == (if ok then old(auras)[a.value.0 := a.value.1] else old(auras))
    {
      hide TableOk, EffectMask, Flags, TicksOf, SlotFor, Mirror;
      var target := if aimed in units.dummies then aimed else caster;
      var mask, flags := EffectMask(sp.effects), Flags(sp, target == caster);
      if mask == 0 {
        return false;
      }
      var slot := FreeSlot(target, sp.id, caster);
      if slot.None? {
        return false;
      }
      var k := (target, slot.value);
      var stacks := 1;
      if k in auras && auras[k].spell == sp.id && sp.stackAmount > 0 {
        stacks := if sp.stackAmount < auras[k].stacks + 1 then sp.stackAmount else auras[k].stacks + 1;
      }
      var aura := Aura(sp.id, caster, flags, if level < 1 then 1 else level, stacks, sp.duration, sp.school,
                       if Timed(sp) then Some(now + sp.duration) else None, TicksOf(sp.effects, now));
      ApplyKeepsTable(auras, limit, sp, target, caster, level, now);
      Place(k, aura);
      ok := true;
    }

    /** `apply_spell_effects`: direct effects in column order, and the spell's one aura at its first aura column. */
    method SpellEffects(sp: Spell, aimed: nat, caster: nat, level: nat, now: int)
      requires Valid() && limit(sp.id) == sp.stackAmount
      modifies this`auras, this`wire, units
      ensures Valid()
      ensures var dummies := old(units.dummies).Keys;
              var r := Run(old(units.Value()), DirectOps(sp.effects, dummies, aimed, caster, now));
              var a := Applied(old(auras), sp, if aimed in dummies then aimed else caster, caster, level, now);
              && units.Value() == r.s && units.events == old(units.events) + r.events
              && auras == (if a.Some? then old(auras)[a.value.0 := a.value.1] else old(auras))
    {
      hide TableOk, Step, Run, Mirror, EffectMask, Applied, DirectOps, Flags;
      ghost var s0, e0, dummies := units.Value(), units.events, units.dummies.Keys;
      ghost var t := if aimed in dummies then aimed else caster;
      ghost var a := Applied(auras, sp, t, caster, level, now);
      var applied := false;
      NoneYet(sp.effects, dummies, aimed, caster, now, s0, e0);
      for i := 0 to |sp.effects|
        invariant Valid() && units.dummies.Keys == dummies
        invariant Ran(DirectOps(sp.effects[..i], dummies, aimed, caster, now), s0, e0, units.Value(), units.events)
        invariant !applied ==> auras == old(auras) && EffectMask(sp.effects[..i]) == 0
        invariant applied ==> auras == (if a.Some? then old(auras)[a.value.0 := a.value.1] else old(auras))
      {
        var e := sp.effects[i];
        DirectOpsNext(sp.effects, i, dummies, aimed, caster, now);
        ghost var before := DirectOps(sp.effects[..i], dummies, aimed, caster, now);
        assert before + [] == before;
        if e.kind == SPELL_EFFECT_SCHOOL_DAMAGE && e.rolled > 0 {
          if aimed in units.dummies || aimed == caster {
            RanMore(before, Hit(aimed, e.rolled, now), s0, e0, units.Value(), units.events);
            units.Harm(aimed, e.rolled, now);
          }
        } else if e.kind == SPELL_EFFECT_APPLY_AURA {
          if !applied {
            applied := true;
            var _ := Apply(sp, aimed, caster, level, now);
          }
        } else if e.kind == SPELL_EFFECT_HEAL && e.rolled > 0 {
          RanMore(before, Heal(aimed, e.rolled), s0, e0, units.Value(), units.events);
          units.Mend(aimed, e.rolled);
        }
      }
      assert sp.effects[..|sp.effects|] == sp.effects;
      NoMaskNoAura(old(auras), sp, t, caster, level, now);
    }

    /** The table entry and the packet that shows it. */
    method Place(k: Key, aura: Aura)
      requires Valid() && TableOk(auras[k := aura], limit)
      modifies this`auras, this`wire
      ensures Valid() && auras == old(auras)[k := aura]
    {
      hide TableOk;
      var u := Show(k, aura.spell, aura.flags, aura.level, aura.stacks, aura.caster, aura.maxdur, aura.maxdur);
      MirrorAppend(wire, u);
      ShownPlace(auras, k, aura);
      auras := auras[k := aura];
      wire := wire + [u];
    }

    /** `free_aura_slot`: the slot held by the same spell and caster, else the first free one. */
    method FreeSlot(target: nat, spell: nat, caster: nat) returns (slot: Option<nat>)
      ensures slot == SlotFor(auras, target, spell, caster)
    {
      for s := 0 to MAX_SLOTS
        invariant HeldFrom(auras, target, spell, caster, 0) == HeldFrom(auras, target, spell, caster, s)
      {
        if (target, s) in auras && SameAura(auras[(target, s)], spell, caster) {
          return Some(s);
        }
      }
      for s := 0 to MAX_SLOTS
        invariant FreeFrom(auras, target, 0) == FreeFrom(auras, target, s)
      {
        if (target, s) !in auras {
          return Some(s);
        }
      }
      slot := None;
    }

    /** `remove_aura`. */
    method Remove(k: Key) returns (gone: bool)
      requires Valid()
      modifies this`auras, this`wire
      ensures Valid() && gone == (k in old(auras)) && auras == old(auras) - {k}
    {
      hide TableOk;
      if k !in auras {
        assert auras - {k} == auras;
        return false;
      }
      MirrorAppend(wire, Hide(k));
      EraseKeepsTable(auras, limit, k);
      auras := auras - {k};
      wire := wire + [Hide(k)];
      gone := true;
    }

    /** CMSG_CANCEL_AURA: every slot of the player's that shows the spell. */
    method CancelSpell(player: nat, spell: nat)
      requires Valid()
      modifies this`auras, this`wire
      ensures Valid()
      ensures auras == map k | k in old(auras) && !(k.0 == player && old(auras)[k].spell == spell) :: old(auras)[k]
    {
      var doomed := set k | k in auras && k.0 == player && auras[k].spell == spell;
      RemoveAll(doomed);
      assert auras == map k | k in old(auras) && !(k.0 == player && old(auras)[k].spell == spell) :: old(auras)[k];
    }

    /** `.aura clear`. */
    method ClearAll()
      requires Valid()
      modifies this`auras, this`wire
      ensures Valid() && auras == map[]
    {
      RemoveAll(auras.Keys);
    }

    method RemoveAll(doomed: set<Key>)
      requires Valid()
      modifies this`auras, this`wire
      ensures Valid() && auras == old(auras) - doomed
    {
      var todo := doomed;
      while todo != {}
        invariant Valid() && todo <= doomed && auras == old(auras) - (doomed - todo)
        decreases todo
      {
        var k :| k in todo;
        var _ := Remove(k);
        todo := todo - {k};
      }
    }

    /** `aura_periodic_apply`: move the number and log it. */
    method Pulse(target: nat, t: Tick, now: int)
      requires Bounded(units.Value()) && t.aura in HARM + HELP + POWER
      modifies units
      ensures var o := Step(old(units.Value()), Effected(target, t, now));
              units.Value() == o.s && units.events == old(units.events) + o.events
    {
      if t.aura in HELP {
        units.Mend(target, t.amount);
      } else if t.aura in HARM {
        units.Harm(target, t.amount, now);
      } else {
        units.GivePower(t.amount);
      }
    }

    /** The catch-up loop of one tick of one aura. */
    method CatchUp(k: Key, i: nat, now: int) returns (fs: seq<Fire>)
      requires Valid() && k in auras && i < |auras[k].ticks|
      modifies this`auras, units
      ensures Valid()
      ensures var a := old(auras)[k]; var l := Limit(now, a.expires);
              && auras == old(auras)[k := a.(ticks := a.ticks[i := Advanced(a.ticks[i], l)])]
              && fs == Times(Fire(k, i), Fires(a.ticks[i], l))
      ensures Performed(old(auras), fs, now, old(units.Value()), old(units.events), units.Value(), units.events)
    {
      hide TableOk, Step, Run, Fires, Mirror;
      ghost var was, u0, e0 := auras, units.Value(), units.events;
      var a := auras[k];
      var t := a.ticks[i];
      var next := t.next;
      fs := [];
      ghost var n := 0;
      assert t.aura in HARM + HELP + POWER by {
        TickKinds(auras, limit, k, i);
      }
      PerformedNone(was, now, u0, e0);
      while next <= now
        invariant auras == was && Bounded(units.Value()) && fs == Times(Fire(k, i), n)
        invariant next == t.next + n * t.period
        invariant n == 0 || t.next + (n - 1) * t.period <= Limit(now, a.expires)
        invariant Performed(was, fs, now, u0, e0, units.Value(), units.events)
        decreases now - next
      {
        if a.expires.Some? && next > a.expires.value {
          break;
        }
        ghost var u1, e1 := units.Value(), units.events;
        Pulse(k.0, t, now);
        PerformedOne(was, Fire(k, i), now, u1, e1);
        PerformedConcat(was, fs, [Fire(k, i)], now, u0, e0, u1, e1, units.Value(), units.events);
        fs := fs + [Fire(k, i)];
        assert t.next + n * t.period + t.period == t.next + (n + 1) * t.period;
        n := n + 1;
        next := next + t.period;
      }
      FiresUnique(t, n, Limit(now, a.expires));
      RetickKeepsTable(auras, limit, k, i, t.(next := next));
      auras := auras[k := a.(ticks := a.ticks[i := t.(next := next)])];
    }

    /** One aura's turn: every tick caught up, then the aura removed if its time is over. */
    method PollOne(k: Key, now: int) returns (fs: seq<Fire>)
      requires Valid() && k in auras
      modifies this`auras, this`wire, units
      ensures Valid()
      ensures var a := old(auras)[k];
              auras == if Expired(a, now) then old(auras) - {k} else old(auras)[k := AfterPoll(a, now)]
      ensures forall f :: multiset(fs)[f] == if f.key == k then FireCount(old(auras), f, now) else 0
      ensures Performed(old(auras), fs, now, old(units.Value()), old(units.events), units.Value(), units.events)
    {
      hide TableOk, Step, Run, Fires, Mirror, Advanced, Performed;
      ghost var was, u0, e0 := auras, units.Value(), units.events;
      var a := auras[k];
      ghost var l := Limit(now, a.expires);
      fs := [];
      PerformedNone(was, now, u0, e0);
      PartPolledAll(a, now);
      assert was[k := a] == was;
      for i := 0 to |a.ticks|
        invariant Valid() && auras == was[k := PartPolled(a, now, i)]
        invariant forall f :: multiset(fs)[f] == if f.key == k && f.tick < i then FireCount(was, f, now) else 0
        invariant Performed(was, fs, now, u0, e0, units.Value(), units.events)
      {
        ghost var mid, u1, e1 := auras, units.Value(), units.events;
        var more := CatchUp(k, i, now);
        PartPolledNext(a, now, i);
        TimesCount(Fire(k, i), Fires(a.ticks[i], l));
        TimesMembers(Fire(k, i), Fires(a.ticks[i], l));
        SameOps(was, mid, more, now, u1, e1, units.Value(), units.events);
        PerformedConcat(was, fs, more, now, u0, e0, u1, e1, units.Value(), units.events);
        fs := fs + more;
      }
      if auras[k].expires.Some? && now >= auras[k].expires.value {
        var _ := Remove(k);
        assert auras == was - {k};
      }
    }

    /** `aura_tick`: rate-limited, then every aura in some order. */
    method Poll(now: int) returns (fs: seq<Fire>)
      requires Valid()
      modifies this`auras, this`wire, this`lastTick, units
      ensures Valid()
      ensures now - old(lastTick) < TICK_MIN ==>
                fs == [] && auras == old(auras) && lastTick == old(lastTick)
                && units.Value() == old(units.Value()) && units.events == old(units.events)
      ensures now - old(lastTick) >= TICK_MIN ==>
                && lastTick == now && auras == PolledTable(old(auras), now)
                && (forall f :: multiset(fs)[f] == FireCount(old(auras), f, now))
                && Performed(old(auras), fs, now, old(units.Value()), old(units.events), units.Value(), units.events)
    {
      hide TableOk, Step, Run, Fires, Mirror, Advanced, Performed;
      fs := [];
      if now - lastTick < TICK_MIN {
        return;
      }
      lastTick := now;
      ghost var was, u0, e0 := auras, units.Value(), units.events;
      PerformedNone(was, now, u0, e0);
      var todo := auras.Keys;
      while todo != {}
        invariant Valid() && lastTick == now && todo <= was.Keys
        invariant auras == HalfPolled(was, todo, now)
        invariant forall f :: multiset(fs)[f] == if f.key in todo then 0 else FireCount(was, f, now)
        invariant Performed(was, fs, now, u0, e0, units.Value(), units.events)
        decreases todo
      {
        var k :| k in todo;
        ghost var mid, u1, e1 := auras, units.Value(), units.events;
        var more := PollOne(k, now);
        forall f | f in more ensures OpOf(was, f, now) == OpOf(mid, f, now) {
          assert multiset(more)[f] > 0;
        }
        SameOps(was, mid, more, now, u1, e1, units.Value(), units.events);
        PerformedConcat(was, fs, more, now, u0, e0, u1, e1, units.Value(), units.events);
        HalfPolledNext(was, todo, k, now);
        fs := fs + more;
        todo := todo - {k};
      }
      assert auras == PolledTable(was, now);
    }
  }

  /** The auras in `todo` still as they were. */
  function HalfPolled(t: Table, todo: set<Key>, now: int): Table {
    map k | k in t && (k in todo || !Expired(t[k], now)) :: if k in todo then t[k] else AfterPoll(t[k], now)
  }

  lemma HalfPolledNext(t: Table, todo: set<Key>, k: Key, now: int)
    requires k in todo && todo <= t.Keys
    ensures var h := HalfPolled(t, todo, now);
            && k in h && h[k] == t[k]
            && HalfPolled(t, todo - {k}, now)
               == if Expired(t[k], now) then h - {k} else h[k := AfterPoll(t[k], now)]
  {
    hide AfterPoll, Expired;
  }

  /** The first n schedules caught up, the rest as they were. */
  function PartPolled(a: Aura, now: int, n: nat): Aura
    requires n <= |a.ticks|
  {
    a.(ticks := AfterPoll(a, now).ticks[..n] + a.ticks[n..])
  }

  lemma PartPolledNext(a: Aura, now: int, n: nat)
    requires n < |a.ticks|
    ensures var b := PartPolled(a, now, n);
            && b.ticks[n] == a.ticks[n] && b.expires == a.expires
            && PartPolled(a, now, n + 1)
               == b.(ticks := b.ticks[n := Advanced(a.ticks[n], Limit(now, a.expires))])
  {
    hide Advanced;
  }

  lemma PartPolledAll(a: Aura, now: int)
    ensures PartPolled(a, now, 0) == a && PartPolled(a, now, |a.ticks|) == AfterPoll(a, now)
  {}

  lemma TickKinds(t: Table, limit: nat -> nat, k: Key, i: nat)
    requires TableOk(t, limit) && k in t && i < |t[k].ticks|
    ensures t[k].ticks[i].aura in HARM + HELP + POWER
  {
    assert EntryOk(k, t[k], limit);
  }
}
