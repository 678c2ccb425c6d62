/**
 * The command dispatcher of the CLI framework: commands registered by name,
 * looked up by name or by alias, and guarded by a per-command cooldown.
 *
 * `std::map<std::string, Command>` is an ascending association list
 * (`OrderedMap`); the cooldown table, which is never iterated, is a `map`.
 * The wall clock is read in whole milliseconds and handed in as `now`; the
 * command's callback is recorded as an `Invocation` in a ghost log.
 */
module Commands {
  import opened Optional
  import opened Strings
  import opened OrderedMap

  const TwoTo63: int := 0x8000_0000_0000_0000
  const TwoTo64: int := 0x1_0000_0000_0000_0000

  /** `size_t`. */
  type Size = n: int | 0 <= n < TwoTo64

  /** A registered command; its `exec` callback is kept out of the record. */
  datatype Command = Command(alias: seq<string>, description: string, cooldown: Size)

  /** When a command was armed, and for how many milliseconds. */
  datatype Cooldown = Cooldown(amount: int, time: int)

  /** One call of a command's callback: the key it ran under and its arguments. */
  datatype Invocation = Invocation(key: string, args: seq<string>)

  /**
   * `std::chrono::milliseconds(cooldown)`: the `size_t` becomes the signed
   * 64-bit tick count, wrapping modulo 2^64.
   */
  function Millis(c: Size): (ms: int)
    ensures -TwoTo63 <= ms < TwoTo63
    ensures (ms - c) % TwoTo64 == 0
    ensures c < TwoTo63 ==> ms == c
  {
    if c < TwoTo63 then c else c - TwoTo64
  }

  /**
   * `findbyAlias`: walk the commands in key order; the first command with
   * no aliases ends the search with "", the first whose aliases hold
   * `alias` gives its key.
   */
  function AliasOwner(cmds: Entries<Command>, alias: string): (key: string)
    ensures key == "" || exists i | 0 <= i < |cmds| :: cmds[i].0 == key && alias in cmds[i].1.alias
  {
    if cmds == [] then ""
    else if cmds[0].1.alias == [] then ""
    else if alias in cmds[0].1.alias then cmds[0].0
    else AliasOwner(cmds[1..], alias)
  }

  /** The key `run` looks up: the alias owner if there is one, else the name itself. */
  function Resolve(cmds: Entries<Command>, name: string): (key: string)
    ensures AliasOwner(cmds, name) == "" ==> key == name
    ensures AliasOwner(cmds, name) != "" ==> key == AliasOwner(cmds, name)
  {
    var owner := AliasOwner(cmds, name);
    if owner == "" then name else owner
  }

  /** What a call of `run` decides: whether the command ran, under which key, and the new cooldowns. */
  datatype Outcome = Outcome(ran: bool, key: string, cooldowns: map<string, Cooldown>)

  /**
   * `run` at time `now`: an unknown key is refused; a command not armed
   * runs and is armed; an armed command runs, and is disarmed, only once
   * more than its amount of milliseconds has passed. A refused call changes
   * no cooldown; a call that runs a registered command flips whether that
   * command is armed.
   */
  function Dispatch(cmds: Entries<Command>, cds: map<string, Cooldown>, name: string, now: int): (o: Outcome)
    ensures o.key == Resolve(cmds, name)
    ensures !o.ran ==> o.cooldowns == cds
    ensures o.ran ==> Contains(cmds, o.key) && (o.key in o.cooldowns <==> o.key !in cds)
  {
    var key := Resolve(cmds, name);
    match Get(cmds, key)
    case None => Outcome(false, key, cds)
    case Some(cmd) =>
      if key !in cds then Outcome(true, key, cds[key := Cooldown(Millis(cmd.cooldown), now)])
      else if now - cds[key].time <= cds[key].amount then Outcome(false, key, cds)
      else Outcome(true, key, cds - {key})
  }

  /**
   * The help line of one command: the key, ": ", the description and a
   * newline, so three characters besides the two texts.
   */
  function CommandLine(key: string, cmd: Command): (line: string)
    ensures |line| == |key| + |cmd.description| + 3
  {
    key + ": " + cmd.description + "\n"
  }

  function CommandLines(cmds: Entries<Command>): (lines: seq<string>)
    ensures |lines| == |cmds|
    ensures forall i | 0 <= i < |cmds| :: lines[i] == CommandLine(cmds[i].0, cmds[i].1)
  {
    seq(|cmds|, i requires 0 <= i < |cmds| => CommandLine(cmds[i].0, cmds[i].1))
  }

  class CommandHandler {
    /** `cmds`, in key order. */
    var cmds: Entries<Command>
    /** `cooldowns`: the armed commands, by key. */
    var cooldowns: map<string, Cooldown>
    /** The callbacks called so far, oldest first. */
    ghost var invoked: seq<Invocation>

    ghost predicate Valid()
      reads this
    {
      Sorted(cmds)
    }

    /**
     * The handler built from an initializer list: the commands in key
     * order, the first of several entries with one key kept.
     */
    constructor (commands: Entries<Command>)
      ensures Valid()
      ensures cmds == FromList(commands) && cooldowns == map[] && invoked == []
    {
      cmds := FromList(commands);
      cooldowns := map[];
      invoked := [];
      FromListSorted(commands);
    }

    /** The default constructor: no commands. */
    constructor Empty()
      ensures Valid()
      ensures cmds == [] && cooldowns == map[] && invoked == []
    {
      cmds := [];
      cooldowns := map[];
      invoked := [];
    }

    /** `findbyAlias`, as a search over the commands in key order. */
    method FindByAlias(alias: string) returns (key: string)
      ensures key == AliasOwner(cmds, alias)
    {
      var i := 0;
      while i < |cmds|
        invariant 0 <= i <= |cmds|
        invariant AliasOwner(cmds[i..], alias) == AliasOwner(cmds, alias)
      {
        var names := cmds[i].1.alias;
        assert cmds[i..][0] == cmds[i];
        if |names| == 0 {
          return "";
        }
        var j := 0;
        while j < |names|
          invariant 0 <= j <= |names|
          invariant alias !in names[..j]
        {
          if names[j] == alias {
            return cmds[i].0;
          }
          assert names[..j + 1] == names[..j] + [names[j]];
          j := j + 1;
        }
        assert names[..j] == names;
        assert cmds[i..][1..] == cmds[i + 1..];
        i := i + 1;
      }
      return "";
    }

    /**
     * `run` at time `now`: whether the command ran; the cooldowns change as
     * `Dispatch` says, and the callback of the resolved key is called with
     * `args` exactly when the command ran.
     */
    method Run(name: string, args: seq<string>, now: int) returns (ran: bool)
      requires Valid()
      modifies this`cooldowns, this`invoked
      ensures Valid()
      ensures var o := Dispatch(cmds, old(cooldowns), name, now);
        ran == o.ran && cooldowns == o.cooldowns &&
        invoked == old(invoked) + (if o.ran then [Invocation(o.key, args)] else [])
    {
      var alias := FindByAlias(name);
      var parsedName := if alias == "" then name else alias;
      var found := Get(cmds, parsedName);
      if found.None? {
        return false;
      }
      var cmd := found.value;
      if parsedName !in cooldowns {
        cooldowns := cooldowns[parsedName := Cooldown(Millis(cmd.cooldown), now)];
      } else {
        var cooldown := cooldowns[parsedName];
        var diff := now - cooldown.time;
        if diff <= cooldown.amount {
          return false;
        }
        cooldowns := cooldowns - {parsedName};
      }
      invoked := invoked + [Invocation(parsedName, args)];
      return true;
    }

    /**
     * `help`: the text it writes, one line per command in ascending key
     * order, each line in place.
     */
    method Help() returns (text: string)
      requires Valid()
      ensures text == Concat(CommandLines(cmds))
      ensures InPlace(CommandLines(cmds), text)
      ensures var lines := CommandLines(cmds);
        forall i, j | 0 <= i < j < |lines| :: Offset(lines, i) < Offset(lines, j) && Less(cmds[i].0, cmds[j].0)
    {
      ghost var lines := CommandLines(cmds);
      text := "";
      for i := 0 to |cmds|
        invariant text == Concat(lines[..i])
      {
        ConcatSnoc(lines, i);
        text := text + CommandLine(cmds[i].0, cmds[i].1);
      }
      assert lines[..|cmds|] == lines;
      LinesInOrder(lines);
    }
  }
}
