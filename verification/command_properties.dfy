/** Properties of alias resolution and of the cooldown gate of `run`. */
module CommandProperties {
  import opened Optional
  import opened Strings
  import opened OrderedMap
  import opened Commands

  // ----- alias resolution -----

  /** The search reaches command `i`: every command before it has aliases, none of them `alias`. */
  ghost predicate Reaches(cmds: Entries<Command>, alias: string, i: nat)
    requires i <= |cmds|
  {
    forall j | 0 <= j < i :: cmds[j].1.alias != [] && alias !in cmds[j].1.alias
  }

  /** A reached command that lists the alias is the owner. */
  lemma {:induction false} OwnerAt(cmds: Entries<Command>, alias: string, i: nat)
    requires i < |cmds| && Reaches(cmds, alias, i) && alias in cmds[i].1.alias
    ensures AliasOwner(cmds, alias) == cmds[i].0
    decreases i
  {
    if i > 0 {
      assert cmds[0].1.alias != [] && alias !in cmds[0].1.alias;
      assert forall j | 0 <= j < i - 1 :: cmds[1..][j] == cmds[j + 1];
      OwnerAt(cmds[1..], alias, i - 1);
    }
  }

  /** A reached command without aliases ends the search with nothing found. */
  lemma {:induction false} EmptyAliasesStop(cmds: Entries<Command>, alias: string, i: nat)
    requires i < |cmds| && Reaches(cmds, alias, i) && cmds[i].1.alias == []
    ensures AliasOwner(cmds, alias) == ""
    decreases i
  {
    if i > 0 {
      assert cmds[0].1.alias != [] && alias !in cmds[0].1.alias;
      assert forall j | 0 <= j < i - 1 :: cmds[1..][j] == cmds[j + 1];
      EmptyAliasesStop(cmds[1..], alias, i - 1);
    }
  }

  /** A search that passes every command finds nothing. */
  lemma {:induction false} NoOwner(cmds: Entries<Command>, alias: string)
    requires Reaches(cmds, alias, |cmds|)
    ensures AliasOwner(cmds, alias) == ""
    decreases |cmds|
  {
    if cmds != [] {
      assert cmds[0].1.alias != [] && alias !in cmds[0].1.alias;
      assert forall j | 0 <= j < |cmds| - 1 :: cmds[1..][j] == cmds[j + 1];
      NoOwner(cmds[1..], alias);
    }
  }

  /** Conversely, a nonempty answer is the key of the first reached command listing the alias. */
  lemma {:induction false} OwnerIsFirst(cmds: Entries<Command>, alias: string)
    requires AliasOwner(cmds, alias) != ""
    ensures exists i | 0 <= i < |cmds| ::
      Reaches(cmds, alias, i) && alias in cmds[i].1.alias && cmds[i].0 == AliasOwner(cmds, alias)
    decreases |cmds|
  {
    if alias in cmds[0].1.alias {
      assert Reaches(cmds, alias, 0);
    } else {
      OwnerIsFirst(cmds[1..], alias);
      var i :| 0 <= i < |cmds[1..]| && Reaches(cmds[1..], alias, i) && alias in cmds[1..][i].1.alias
        && cmds[1..][i].0 == AliasOwner(cmds[1..], alias);
      forall j | 0 <= j < i + 1 ensures cmds[j].1.alias != [] && alias !in cmds[j].1.alias {
        if j > 0 {
          assert cmds[j] == cmds[1..][j - 1];
        }
      }
      assert Reaches(cmds, alias, i + 1);
    }
  }

  /** In a registry in key order, the owner's own record lists the alias. */
  lemma OwnerListsAlias(cmds: Entries<Command>, alias: string)
    requires Sorted(cmds) && AliasOwner(cmds, alias) != ""
    ensures Contains(cmds, AliasOwner(cmds, alias))
    ensures alias in Get(cmds, AliasOwner(cmds, alias)).value.alias
  {
    OwnerIsFirst(cmds, alias);
    var i :| 0 <= i < |cmds| && Reaches(cmds, alias, i) && alias in cmds[i].1.alias && cmds[i].0 == AliasOwner(cmds, alias);
    SortedGet(cmds, i);
  }

  /** A command named "" is never found through an alias: its key reads as "no owner". */
  lemma EmptyKeyNotFoundByAlias(c: Command, alias: string)
    requires alias in c.alias && alias != ""
    ensures Resolve([("", c)], alias) == alias
    ensures !Dispatch([("", c)], map[], alias, 0).ran
  {
    assert AliasOwner([("", c)], alias) == "";
    assert Get([("", c)], alias) == None by {
      assert [("", c)][1..] == [];
    }
  }

  // ----- dispatch -----

  /** A name that resolves to no command runs nothing and changes nothing. */
  lemma UnknownRefused(cmds: Entries<Command>, cds: map<string, Cooldown>, name: string, now: int)
    requires !Contains(cmds, Resolve(cmds, name))
    ensures !Dispatch(cmds, cds, name, now).ran
    ensures Dispatch(cmds, cds, name, now).cooldowns == cds
  {
  }

  /**
   * An alias wins over a command's own name: when `name` is some command's
   * alias, the command that owns it runs, even if `name` is itself a key.
   */
  lemma AliasBeforeName(cmds: Entries<Command>, cds: map<string, Cooldown>, name: string, now: int, i: nat)
    requires Sorted(cmds) && i < |cmds| && Reaches(cmds, name, i) && name in cmds[i].1.alias && cmds[i].0 != ""
    ensures Dispatch(cmds, cds, name, now).key == cmds[i].0
    ensures Dispatch(cmds, cds, name, now).ran <==>
      cmds[i].0 !in cds || now - cds[cmds[i].0].time > cds[cmds[i].0].amount
  {
    OwnerAt(cmds, name, i);
    SortedGet(cmds, i);
  }

  /** A command that is not armed runs and is armed with its own cooldown from `now`. */
  lemma FirstCallArms(cmds: Entries<Command>, cds: map<string, Cooldown>, name: string, now: int)
    requires Contains(cmds, Resolve(cmds, name)) && Resolve(cmds, name) !in cds
    ensures var o := Dispatch(cmds, cds, name, now);
      o.ran && o.cooldowns == cds[o.key := Cooldown(Millis(Get(cmds, o.key).value.cooldown), now)]
  {
  }

  /** An armed command whose window has not passed is refused, and nothing changes. */
  lemma WithinWindowRefused(cmds: Entries<Command>, cds: map<string, Cooldown>, name: string, now: int)
    requires var key := Resolve(cmds, name);
      Contains(cmds, key) && key in cds && now - cds[key].time <= cds[key].amount
    ensures !Dispatch(cmds, cds, name, now).ran
    ensures Dispatch(cmds, cds, name, now).cooldowns == cds
  {
  }

  /** An armed command whose window has passed runs and is disarmed, not re-armed. */
  lemma ExpiredRunsAndDisarms(cmds: Entries<Command>, cds: map<string, Cooldown>, name: string, now: int)
    requires var key := Resolve(cmds, name);
      Contains(cmds, key) && key in cds && now - cds[key].time > cds[key].amount
    ensures var o := Dispatch(cmds, cds, name, now);
      o.ran && o.cooldowns == cds - {o.key}
  {
  }

  /** `run` succeeds exactly when the key is a command that is not armed or whose window has passed. */
  lemma RanIff(cmds: Entries<Command>, cds: map<string, Cooldown>, name: string, now: int)
    ensures var key := Resolve(cmds, name);
      Dispatch(cmds, cds, name, now).ran <==>
        Contains(cmds, key) && (key !in cds || now - cds[key].time > cds[key].amount)
  {
  }

  /** Only the resolved key's cooldown can change. */
  lemma OtherCooldownsKept(cmds: Entries<Command>, cds: map<string, Cooldown>, name: string, now: int, k: string)
    requires k != Resolve(cmds, name)
    ensures var o := Dispatch(cmds, cds, name, now);
      (k in o.cooldowns <==> k in cds) && (k in cds ==> o.cooldowns[k] == cds[k])
  {
  }

  /** Only registered commands are ever armed. */
  lemma ArmedAreRegistered(cmds: Entries<Command>, cds: map<string, Cooldown>, name: string, now: int)
    requires forall k | k in cds :: Contains(cmds, k)
    ensures forall k | k in Dispatch(cmds, cds, name, now).cooldowns :: Contains(cmds, k)
  {
  }

  /**
   * A zero cooldown still refuses a second call in the same millisecond:
   * the window test is `<=`.
   */
  lemma ZeroCooldownSameMillisecond(key: string, c: Command, now: int)
    requires c.alias == [] && c.cooldown == 0
    ensures var first := Dispatch([(key, c)], map[], key, now);
      first.ran && !Dispatch([(key, c)], first.cooldowns, key, now).ran
  {
    assert AliasOwner([(key, c)], key) == "";
    assert Get([(key, c)], key) == Some(c);
  }

  /**
   * The gate over four calls of one command with cooldown `c` (below 2^63)
   * armed at `t0`: a call within `c` milliseconds is refused, a later one
   * runs and disarms, so an immediate fifth call runs again.
   */
  lemma CooldownTrace(cmds: Entries<Command>, key: string, t0: int, t1: int, t2: int)
    requires Contains(cmds, key) && Resolve(cmds, key) == key
    requires Get(cmds, key).value.cooldown < TwoTo63
    requires t0 <= t1 <= t0 + Get(cmds, key).value.cooldown < t2
    ensures var o1 := Dispatch(cmds, map[], key, t0);
      var o2 := Dispatch(cmds, o1.cooldowns, key, t1);
      var o3 := Dispatch(cmds, o2.cooldowns, key, t2);
      var o4 := Dispatch(cmds, o3.cooldowns, key, t2);
      o1.ran && !o2.ran && o3.ran && o4.ran && o3.cooldowns == map[]
  {
    var c := Get(cmds, key).value.cooldown;
    assert Millis(c) == c;
    var armed := map[key := Cooldown(c, t0)];
    assert Dispatch(cmds, map[], key, t0).cooldowns == armed;
    assert Dispatch(cmds, armed, key, t1).cooldowns == armed;
    assert armed - {key} == map[];
  }

  // ----- the handler -----

  /** The `echo` command with aliases `e` and `repeat` and a 5000 ms cooldown. */
  function Echo(): Command
  {
    Command(["e", "repeat"], "Repeats the arguments back", 5000)
  }

  /**
   * `run("e", args)` and `run("echo", args)` call the same callback, with
   * the same arguments; the second within 5000 ms is refused.
   */
  method EchoByAlias(args: seq<string>, now: int) returns (h: CommandHandler, first: bool, second: bool)
    ensures first && !second
    ensures h.invoked == [Invocation("echo", args)]
  {
    h := new CommandHandler([("echo", Echo())]);
    assert FromList([("echo", Echo())]) == [("echo", Echo())];
    assert AliasOwner([("echo", Echo())], "e") == "echo";
    assert AliasOwner([("echo", Echo())], "echo") == "";
    assert Get([("echo", Echo())], "echo") == Some(Echo());
    first := h.Run("e", args, now);
    second := h.Run("echo", args, now + 5000);
  }
}
