/** Character creation through the bridge: the carrier class the core can build, the one byte of the request
    that is rewritten, and the class table that remembers what the player chose. */
module Creations {
  import opened Bytes
  import opened Ordering

  const CHAR_CREATE_SUCCESS: byte := 0x2F

  /** `key` is the decoded, lower-cased name the class table is keyed by. */
  datatype Config = Config(
    coa: bool, fallback: byte, valid: set<byte>, coaClasses: set<byte>, key: seq<byte> -> string)

  // ---- the carrier class ---------------------------------------------------------

  /** The stock race and class pairs. */
  const RACE_CLASSES: map<byte, set<byte>> := map[
    1 := {1, 2, 4, 5, 6, 8, 9},
    2 := {1, 3, 4, 5, 6, 7, 9},
    3 := {1, 2, 3, 4, 5, 6},
    4 := {1, 3, 4, 5, 6, 11},
    5 := {1, 4, 5, 6, 8, 9},
    6 := {1, 3, 6, 7, 11},
    7 := {1, 4, 6, 8, 9},
    8 := {1, 3, 4, 5, 6, 8, 9},
    10 := {2, 3, 4, 5, 6, 8, 9},
    11 := {1, 2, 3, 5, 6, 8}
  ]

  const STOCK_CLASSES: set<byte> := {1, 2, 3, 4, 5, 6, 7, 8, 9, 11}

  function CarrierClass(cfg: Config, race: byte): byte {
    if race !in RACE_CLASSES then cfg.fallback
    else
      var allowed := RACE_CLASSES[race];
      if cfg.fallback in allowed then cfg.fallback
      else if allowed * cfg.valid != {} then Least(allowed * cfg.valid)
      else cfg.fallback
  }

  /** The core accepts the pair exactly when some class it can build is open to the race; with the stock
      tables that is every race of the table, Blood Elves and their missing Warrior included. */
  lemma CarrierFitsRace(cfg: Config, race: byte)
    requires race in RACE_CLASSES && cfg.fallback in cfg.valid
    ensures (CarrierClass(cfg, race) in RACE_CLASSES[race] && CarrierClass(cfg, race) in cfg.valid)
            <==> RACE_CLASSES[race] * cfg.valid != {}
    ensures cfg.valid == STOCK_CLASSES && cfg.fallback == 1 ==> CarrierClass(cfg, race) in RACE_CLASSES[race]
    ensures race == 10 && cfg.valid == STOCK_CLASSES && cfg.fallback == 1 ==> CarrierClass(cfg, race) == 2
  {
    var allowed := RACE_CLASSES[race];
    if cfg.fallback in allowed {
      assert cfg.fallback in allowed * cfg.valid;
    }
    if race == 10 && cfg.valid == STOCK_CLASSES {
      assert 2 in allowed * cfg.valid;
    }
  }

  // ---- the request -----------------------------------------------------------------

  /** A request the bridge rewrites: it names a class the core has no row for. */
  predicate Substituted(cfg: Config, body: seq<byte>) {
    var z := FirstZero(body, 0);
    z.Some? && |body| >= z.value + 3 && body[z.value + 2] !in cfg.valid
  }

  function FixBody(cfg: Config, body: seq<byte>): (r: seq<byte>)
    ensures |r| == |body|
  {
    if Substituted(cfg, body) then
      var z := FirstZero(body, 0).value;
      body[z + 2 := CarrierClass(cfg, body[z + 1])]
    else body
  }

  /** The name and class of a creation, when the player chose a Conquest of Azeroth class. */
  function Meant(cfg: Config, body: seq<byte>): Option<(seq<byte>, byte)> {
    if cfg.coa && Substituted(cfg, body) then
      var z := FirstZero(body, 0).value;
      if z > 0 && body[z + 2] in cfg.coaClasses then Some((body[..z], body[z + 2])) else None
    else None
  }

  /** The staged class after a request. Only a named, substituted one touches it, and a class the core can
      build natively or one outside the custom classes never stays staged. */
  function Stage(cfg: Config, body: seq<byte>, pending: Option<(seq<byte>, byte)>): Option<(seq<byte>, byte)> {
    if !cfg.coa || !Substituted(cfg, body) || FirstZero(body, 0).value == 0 then pending
    else Meant(cfg, body)
  }

  /** What is rewritten is the class byte alone, and to a class the core can build. */
  lemma FixBodyChangesOnlyClass(cfg: Config, body: seq<byte>, i: nat)
    requires i < |body| && FixBody(cfg, body)[i] != body[i]
    ensures Substituted(cfg, body) && i == FirstZero(body, 0).value + 2
    ensures cfg.fallback in cfg.valid ==> FixBody(cfg, body)[i] in cfg.valid
    ensures FixBody(cfg, FixBody(cfg, body)) == FixBody(cfg, body) || cfg.fallback !in cfg.valid
  {
    var fixed, z := FixBody(cfg, body), FirstZero(body, 0).value;
    FirstZeroIs(fixed, 0, z);
  }

  // ---- the class table ---------------------------------------------------------------

  datatype Desk = Desk(pending: Option<(seq<byte>, byte)>, table: map<string, byte>)

  datatype Event = Create(body: seq<byte>) | Reply(body: seq<byte>)

  function Step(cfg: Config, d: Desk, e: Event): Desk {
    match e
    case Create(body) => d.(pending := Stage(cfg, body, d.pending))
    case Reply(body) =>
      if body == [] || d.pending.None? then d
      else if body[0] == CHAR_CREATE_SUCCESS then
        Desk(None, d.table[cfg.key(d.pending.value.0) := d.pending.value.1])
      else d.(pending := None)
  }

  function Run(cfg: Config, d: Desk, es: seq<Event>): Desk
    decreases |es|
  {
    if es == [] then d else Run(cfg, Step(cfg, d, es[0]), es[1..])
  }

  /** The request the core still owes a reply to. */
  type Open = Option<seq<byte>>

  /** A run in which a request is sent only when none is outstanding, and the core replies only to an outstanding
      one. A reply may lack its result byte. */
  predicate Orderly(open: Open, es: seq<Event>)
    decreases |es|
  {
    es == [] || match es[0]
                case Create(body) => open.None? && Orderly(Some(body), es[1..])
                case Reply(body) => open.Some? && Orderly(None, es[1..])
  }

  /** What the table should hold: each acknowledged creation stores its own class, nothing else does. */
  function Acknowledged(cfg: Config, table: map<string, byte>, open: Open, es: seq<Event>): map<string, byte>
    requires Orderly(open, es)
    decreases |es|
  {
    if es == [] then table
    else match es[0]
         case Create(body) => Acknowledged(cfg, table, Some(body), es[1..])
         case Reply(body) =>
           Acknowledged(cfg, if Succeeds(es[0]) then Entered(cfg, table, Meant(cfg, open.value)) else table,
                        None, es[1..])
  }

  predicate Succeeds(e: Event) {
    e.Reply? && e.body != [] && e.body[0] == CHAR_CREATE_SUCCESS
  }

  function Entered(cfg: Config, table: map<string, byte>, m: Option<(seq<byte>, byte)>): map<string, byte> {
    if m.Some? then table[cfg.key(m.value.0) := m.value.1] else table
  }

  /** A success that finds a class staged by an earlier request, because the request it answers stages none and
      the earlier one's reply had no result byte; and that class is news to the table. */
  predicate Leaks(cfg: Config, d: Desk, open: Open, e: Event) {
    && Succeeds(e) && open.Some? && d.pending != Meant(cfg, open.value)
    && Entered(cfg, d.table, d.pending) != d.table
  }

  predicate NeverLeaks(cfg: Config, d: Desk, open: Open, es: seq<Event>)
    decreases |es|
  {
    es == [] || (!Leaks(cfg, d, open, es[0]) && NeverLeaks(cfg, Step(cfg, d, es[0]), After(open, es[0]), es[1..]))
  }

  function After(open: Open, e: Event): Open {
    if e.Create? then Some(e.body) else None
  }

  /** Before the run and after each of its events the table is the acknowledged one. */
  predicate AlwaysAcknowledged(cfg: Config, d: Desk, table: map<string, byte>, open: Open, es: seq<Event>)
    requires Orderly(open, es)
    decreases |es|
  {
    d.table == table
    && (es == [] ||
        var table' := if Succeeds(es[0]) then Entered(cfg, table, Meant(cfg, open.value)) else table;
        AlwaysAcknowledged(cfg, Step(cfg, d, es[0]), table', After(open, es[0]), es[1..]))
  }

  /** What is staged while a request is open: its own class, or a leftover if it stages none itself. */
  ghost predicate Staged(cfg: Config, d: Desk, open: Open) {
    open.Some? ==> Meant(cfg, open.value) in {None, d.pending}
  }

  lemma StepStaged(cfg: Config, d: Desk, open: Open, e: Event)
    requires Staged(cfg, d, open) && if e.Create? then open.None? else open.Some?
    ensures Staged(cfg, Step(cfg, d, e), After(open, e))
    ensures var acknowledged := if Succeeds(e) then Entered(cfg, d.table, Meant(cfg, open.value)) else d.table;
            Step(cfg, d, e).table == acknowledged <==> !Leaks(cfg, d, open, e)
  {
    hide FirstZero, Substituted;
  }

  /** Over every orderly run the table is the acknowledged one throughout, changed by a creation only when the core
      acknowledges it and then by that creation's own name and class, exactly if no success meets a leftover. */
  lemma {:induction false} AcknowledgedExactly(cfg: Config, d: Desk, open: Open, es: seq<Event>)
    requires Orderly(open, es) && Staged(cfg, d, open)
    ensures AlwaysAcknowledged(cfg, d, d.table, open, es) <==> NeverLeaks(cfg, d, open, es)
    decreases |es|
  {
    hide Step, Staged, Leaks, Entered, Meant;
    if es != [] {
      StepStaged(cfg, d, open, es[0]);
      if !Leaks(cfg, d, open, es[0]) {
        AcknowledgedExactly(cfg, Step(cfg, d, es[0]), After(open, es[0]), es[1..]);
      } else {
        NotNow(cfg, Step(cfg, d, es[0]), After(open, es[0]), es[1..],
               if Succeeds(es[0]) then Entered(cfg, d.table, Meant(cfg, open.value)) else d.table);
      }
    }
  }

  lemma NotNow(cfg: Config, d: Desk, open: Open, es: seq<Event>, table: map<string, byte>)
    requires Orderly(open, es) && d.table != table
    ensures !AlwaysAcknowledged(cfg, d, table, open, es)
  {}

  /** When every reply has its result byte nothing is left over. */
  lemma {:induction false} TableIsAcknowledged(cfg: Config, d: Desk, open: Open, es: seq<Event>)
    requires Orderly(open, es) && forall e :: e in es && e.Reply? ==> e.body != []
    requires d.pending == if open.None? then None else Meant(cfg, open.value)
    ensures Run(cfg, d, es).table == Acknowledged(cfg, d.table, open, es)
    ensures NeverLeaks(cfg, d, open, es)
    decreases |es|
  {
    if es != [] {
      assert forall e :: e in es[1..] ==> e in es;
      TableIsAcknowledged(cfg, Step(cfg, d, es[0]), After(open, es[0]), es[1..]);
    }
  }

  /** The request that event j of a run answers: the one just before it. */
  function Asked(open: Open, es: seq<Event>, j: nat): Open
    requires j < |es|
  {
    if j == 0 then open else if es[j - 1].Create? then Some(es[j - 1].body) else None
  }

  /** A success reply to this creation. */
  predicate Grants(open: Open, es: seq<Event>, j: nat, body: seq<byte>) {
    j < |es| && Asked(open, es, j) == Some(body) && Succeeds(es[j])
  }

  /** So a name's entry is new or changed only through a success reply that answers a creation of that very name
      and class. */
  lemma {:induction false} ChangeHasCause(cfg: Config, table: map<string, byte>, open: Open, es: seq<Event>, k: string)
    returns (body: seq<byte>, j: nat)
    requires Orderly(open, es)
    requires var t := Acknowledged(cfg, table, open, es); k in t && (k !in table || t[k] != table[k])
    ensures Grants(open, es, j, body)
    ensures Meant(cfg, body).Some? && cfg.key(Meant(cfg, body).value.0) == k
    ensures Meant(cfg, body).value.1 == Acknowledged(cfg, table, open, es)[k]
    decreases |es|
  {
    var i;
    if es[0].Create? {
      body, i := ChangeHasCause(cfg, table, Some(es[0].body), es[1..], k);
    } else {
      var m := Meant(cfg, open.value);
      if Succeeds(es[0]) && m.Some? {
        var table' := Entered(cfg, table, m);
        var t := Acknowledged(cfg, table', None, es[1..]);
        if k in table' && t[k] == table'[k] {
          return open.value, 0;
        }
        body, i := ChangeHasCause(cfg, table', None, es[1..], k);
      } else {
        body, i := ChangeHasCause(cfg, table, None, es[1..], k);
      }
    }
    j := i + 1;
  }

  /** The hypothesis is needed: with a second request outstanding, the refusal of the first discards the
      second's class although the core accepts it; and a reply without a result byte leaves a class staged
      that the next success, a stock creation's, commits. */
  lemma DisorderLosesAndLeaks(cfg: Config, a: seq<byte>, b: seq<byte>, stock: seq<byte>, d: Desk)
    requires d.pending == None && Meant(cfg, a).Some? && Meant(cfg, b).Some?
    requires cfg.key(Meant(cfg, b).value.0) !in d.table && cfg.key(Meant(cfg, a).value.0) !in d.table
    requires cfg.coa && !Substituted(cfg, stock)
    ensures Run(cfg, d, [Create(a), Create(b), Reply([0x31]), Reply([CHAR_CREATE_SUCCESS])]).table == d.table
    ensures Run(cfg, d, [Create(a), Reply([]), Create(stock), Reply([CHAR_CREATE_SUCCESS])]).table
         == d.table[cfg.key(Meant(cfg, a).value.0) := Meant(cfg, a).value.1]
  {
    RunFour(cfg, d, Create(a), Create(b), Reply([0x31]), Reply([CHAR_CREATE_SUCCESS]));
    RunFour(cfg, d, Create(a), Reply([]), Create(stock), Reply([CHAR_CREATE_SUCCESS]));
  }

  lemma RunFour(cfg: Config, d: Desk, e: Event, f: Event, g: Event, h: Event)
    ensures Run(cfg, d, [e, f, g, h]) == Step(cfg, Step(cfg, Step(cfg, Step(cfg, d, e), f), g), h)
  {
    hide Step;
    RunNext(cfg, d, e, [f, g, h]);
    RunNext(cfg, Step(cfg, d, e), f, [g, h]);
    RunNext(cfg, Step(cfg, Step(cfg, d, e), f), g, [h]);
    RunNext(cfg, Step(cfg, Step(cfg, Step(cfg, d, e), f), g), h, []);
    assert [e] + [f, g, h] == [e, f, g, h];
    assert [f] + [g, h] == [f, g, h];
    assert [g] + [h] == [g, h];
    assert [h] + [] == [h];
  }

  lemma RunNext(cfg: Config, d: Desk, e: Event, es: seq<Event>)
    ensures Run(cfg, d, [e] + es) == Run(cfg, Step(cfg, d, e), es)
  {
    assert ([e] + es)[1..] == es;
  }

  /** The bridge session's fields behind a creation. */
  class Session {
    const cfg: Config
    var pendingCoaClass: Option<(seq<byte>, byte)>
    var classTable: map<string, byte>

    ghost function Value(): Desk
      reads this
    {
      Desk(pendingCoaClass, classTable)
    }

    constructor (cfg: Config, stored: map<string, byte>)
      ensures this.cfg == cfg && Value() == Desk(None, stored)
    {
      this.cfg, pendingCoaClass, classTable := cfg, None, stored;
    }

    /** `fix_char_create`: the body to forward, with the player's choice staged. */
    method FixCharCreate(body: seq<byte>) returns (out: seq<byte>)
      modifies this`pendingCoaClass
      ensures out == FixBody(cfg, body)
      ensures Value() == Step(cfg, old(Value()), Create(body))
    {
      var at := FirstZero(body, 0);
      if at.None? {
        return body;
      }
      var z := at.value;
      var tail := body[z + 1..];
      if |tail| < 2 {
        return body;
      }
      var clas := tail[1];
      if clas in cfg.valid {
        return body;
      }
      var carrier := CarrierClass(cfg, tail[0]);
      if cfg.coa {
        if z == 0 {
        } else if clas in cfg.coaClasses {
          pendingCoaClass := Some((body[..z], clas));
        } else {
          pendingCoaClass := None;
        }
      }
      tail := tail[1 := carrier];
      out := body[..z + 1] + tail;
      assert out == body[z + 2 := carrier];
    }

    /** The core's SMSG_CHAR_CREATE. */
    method CreateReply(body: seq<byte>)
      modifies this
      ensures Value() == Step(cfg, old(Value()), Reply(body))
    {
      if body != [] && pendingCoaClass.Some? {
        if body[0] == CHAR_CREATE_SUCCESS {
          classTable := classTable[cfg.key(pendingCoaClass.value.0) := pendingCoaClass.value.1];
        }
        pendingCoaClass := None;
      }
    }
  }
}
