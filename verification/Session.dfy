/** The world session's handlers, updating their variables in place as the packet loop does; each is proved to be
    the corresponding step of `Advancement`. */
module Session {
  import opened Bytes
  import opened Spellbook
  import opened Advancement

  class World {
    const keeper: Keeper
    const mode: Mode
    var classByte: nat
    var active: string
    var builds: map<string, seq<Row>>
    var inWorld: bool
    var pending: Option<int>
    var ack: Option<string>

    constructor (keeper: Keeper, mode: Mode, classByte: nat, active: string, builds: map<string, seq<Row>>)
      ensures this.keeper == keeper && this.mode == mode
      ensures Value() == State(keeper.Value(), classByte, active, builds, false, None, None)
    {
      this.keeper, this.mode, this.classByte, this.active, this.builds := keeper, mode, classByte, active, builds;
      inWorld, pending, ack := false, None, None;
    }

    function Value(): State
      reads this, keeper
    {
      State(keeper.Value(), classByte, active, builds, inWorld, pending, ack)
    }

    /** `send_essence_budget`. */
    method SendEssence()
      modifies keeper`log
      ensures keeper.Value() == Post(old(keeper.Value()), EssenceRows(keeper.data.essence))
    {
      hide Stamped;
      ghost var b := keeper.Value();
      var n := keeper.data.essence;
      assert Post(b, EssenceRows(0)) == b;
      for i := 0 to n
        invariant keeper.Value() == Post(b, EssenceRows(i))
      {
        EssenceMore(b, i);
        keeper.Send(Essence(i));
      }
    }

    /** CMSG_PLAYER_LOGIN. */
    method Enter(now: int)
      modifies this`inWorld, this`pending, keeper
      ensures Value() == Step(keeper.data, mode, old(Value()), Login(now))
    {
      hide SendBook, Post;
      keeper.Send(Entered);
      keeper.SendSpellbook();
      inWorld, pending := true, Some(now);
    }

    /** CMSG_LOGOUT_REQUEST. */
    method Leave()
      modifies this`inWorld, this`pending
      ensures Value() == Answer(keeper.data, mode, old(Value()), Logout)
    {
      inWorld, pending := false, None;
    }

    /** `flush_ca`. */
    method FlushCa()
      modifies this`pending, this`ack, keeper
      ensures Value() == Flush(keeper.data, mode, old(Value()))
    {
      hide SendKnown, Post, EssenceRows;
      pending := None;
      if mode == NoBlock {
        return;
      }
      keeper.Send(Spec);
      if mode != KnownOnly {
        SendEssence();
      }
      if mode != BudgetOnly {
        var _ := keeper.SendKnownEntries();
      }
      if active != "" {
        keeper.Send(Active(active));
      }
      if ack.Some? {
        keeper.Send(Result(true));
      }
      ack := None;
    }

    /** CMSG_SET_ACTIVE_MOVER. */
    method ActiveMover()
      modifies this`pending, this`ack, keeper
      ensures Value() == Answer(keeper.data, mode, old(Value()), SetActiveMover)
    {
      hide Flush;
      if pending.Some? {
        FlushCa();
      }
    }

    /** The fallback in CMSG_PING. */
    method OnPing(now: int)
      modifies this`pending, this`ack, keeper
      ensures Value() == Answer(keeper.data, mode, old(Value()), Ping(now))
    {
      hide Flush;
      if pending.Some? && now - pending.value >= FALLBACK {
        FlushCa();
      }
    }

    /** `set_known` and `send_known_entries`. */
    method SetKnown(rows: seq<Row>)
      modifies keeper
      ensures Value() == Store(keeper.data, old(Value()), rows)
    {
      hide SendKnown;
      keeper.known := rows;
      var _ := keeper.SendKnownEntries();
    }

    /** CMSG_BUILD_ACTIVATE. */
    method BuildActivate(id: string)
      modifies this`active, this`ack, keeper
      ensures Value() == Answer(keeper.data, mode, old(Value()), Activate(id))
    {
      hide SendKnown, Post, ById;
      if pending.Some? {
        if id !in builds {
          keeper.Send(Result(false));
          return;
        }
        keeper.known := ById(builds[id]);
        active := id;
        keeper.sent := None;
        ack := Some(id);
        return;
      }
      if id !in builds {
        var _ := keeper.SendKnownEntries();
        keeper.Send(Result(false));
      } else {
        keeper.known := ById(builds[id]);
        var _ := keeper.SendKnownEntries();
        keeper.Send(Active(id));
        active := id;
        keeper.Send(Result(true));
      }
    }

    /** CMSG_CA_KNOWN_ENTRIES_UPLOAD: the client's tree replaces the stored one. */
    method KnownUpload(records: seq<Row>)
      modifies keeper
      ensures Value() == Answer(keeper.data, mode, old(Value()), Upload(records))
      ensures exists best :: BestOf(records, best) && keeper.known == ById(best)
    {
      hide Store, ById, BestOf;
      var best: seq<Row> := [];
      for i := 0 to |records|
        invariant best == Best(records[..i])
        invariant Value() == old(Value())
      {
        assert records[..i + 1][..i] == records[..i];
        var r := records[i];
        var k := Place(best, r.id);
        if k == |best| || r.rank > best[k].rank {
          best := Put(best, r);
        }
      }
      assert records[..|records|] == records;
      BestIsBest(records);
      SeenStore(keeper.data, Value(), ById(best));
      SetKnown(ById(best));
    }

    /** `.class`. */
    method ClassCommand(c: nat, keep: bool)
      modifies this`classByte, keeper
      ensures Value() == Answer(keeper.data, mode, old(Value()), ChangeClass(c, keep))
    {
      hide SendKnown, Post, EssenceRows, Unlearnable, Without, ById;
      if c == classByte {
        return;
      }
      classByte := c;
      var gone := Unlearnable(keeper.data, keeper.known, c);
      if gone != {} && !keep {
        keeper.known := Without(ById(keeper.known), gone);
      }
      keeper.Send(ClassByte(c));
      SendEssence();
      var _ := keeper.SendKnownEntries();
    }
  }

  lemma EssenceMore(b: Book, i: nat)
    ensures Post(Post(b, EssenceRows(i)), [Essence(i)]) == Post(b, EssenceRows(i + 1))
  {
    assert EssenceRows(i + 1) == EssenceRows(i) + [Essence(i)];
    StampedConcat(EssenceRows(i), [Essence(i)], b.known);
    assert b.log + Stamped(EssenceRows(i), b.known) + Stamped([Essence(i)], b.known)
        == b.log + (Stamped(EssenceRows(i), b.known) + Stamped([Essence(i)], b.known));
  }
}
