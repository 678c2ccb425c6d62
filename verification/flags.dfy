/**
 * The flag parser `cli::Flags`: a registry of typed flags keyed by "-" + name,
 * and a parse of the argument vector that writes flag values into their
 * destinations and collects every other token as a clean argument.
 */
module FlagParser {
  import opened Optional
  import opened Strings
  import opened OrderedMap

  /** The five destination types a flag can be bound to. */
  datatype Kind = BoolKind | IntKind | BigIntKind | StringKind | FloatKind

  /**
   * The content of a destination: `bool`, `int32_t`, `int64_t`,
   * `std::string` or `float` (kept as its IEEE 754 single-precision bits).
   */
  datatype Value = Bool(b: bool) | Int(i: int) | BigInt(i: int) | Str(s: string) | Float(bits: bv32)

  function KindOf(v: Value): Kind
  {
    match v
    case Bool(_) => BoolKind
    case Int(_) => IntKind
    case BigInt(_) => BigIntKind
    case Str(_) => StringKind
    case Float(_) => FloatKind
  }

  /** What the registry keeps of a flag; its destination is kept apart. */
  datatype FlagData = FlagData(kind: Kind, description: string)

  type Registry = Entries<FlagData>

  /**
   * The library's text-to-number conversions, `std::stol`, `std::stoll` and
   * `std::stof`: `None` where the library throws.
   */
  datatype Conversions = Conversions(
    stol: string -> Option<int>,
    stoll: string -> Option<int>,
    stof: string -> Option<bv32>)

  const TwoTo32: int := 0x1_0000_0000
  const MinInt32: int := -0x8000_0000
  const MaxInt32: int := 0x7fff_ffff

  /** Assigning a `long` to an `int32_t`: reduction modulo 2^32. */
  function Wrap32(n: int): (r: int)
    ensures MinInt32 <= r <= MaxInt32
    ensures (n - r) % TwoTo32 == 0
    ensures MinInt32 <= n <= MaxInt32 ==> r == n
  {
    var m := n % TwoTo32;
    if m <= MaxInt32 then m else m - TwoTo32
  }

  /** The `switch` of `parse_type` for the four non-bool kinds. */
  function Convert(conv: Conversions, kind: Kind, raw: string): (r: Option<Value>)
    requires kind != BoolKind
    ensures r.Some? ==> KindOf(r.value) == kind
    ensures kind == StringKind ==> r == Some(Str(raw))
    ensures r.Some? && kind == IntKind ==> MinInt32 <= r.value.i <= MaxInt32
  {
    match kind
    case IntKind => (match conv.stol(raw) case Some(n) => Some(Int(Wrap32(n))) case None => None)
    case StringKind => Some(Str(raw))
    case FloatKind => (match conv.stof(raw) case Some(f) => Some(Float(f)) case None => None)
    case BigIntKind => (match conv.stoll(raw) case Some(n) => Some(BigInt(n)) case None => None)
  }

  /**
   * What `parse_type` does to the destinations: a bool flag becomes true
   * whatever `raw` is; any other flag takes the converted `raw`, or keeps
   * its value when the conversion fails.
   */
  function Write(conv: Conversions, dests: map<string, Value>, key: string, kind: Kind, raw: string): (r: map<string, Value>)
    ensures forall k | k != key :: (k in r <==> k in dests) && (k in dests ==> r[k] == dests[k])
    ensures key in dests ==> key in r
    ensures kind == BoolKind ==> key in r && r[key] == Bool(true)
  {
    if kind == BoolKind then dests[key := Bool(true)]
    else match Convert(conv, kind, raw)
      case Some(v) => dests[key := v]
      case None => dests
  }

  /** `enum_to_str`: the type label shown in the help text; never empty. */
  function EnumToStr(kind: Kind): (typeName: string)
    ensures |typeName| > 0
  {
    match kind
    case BoolKind => "bool"
    case BigIntKind => "Big int"
    case IntKind => "number"
    case StringKind => "string"
    case FloatKind => "floating point number"
  }

  /**
   * The help line of one flag: the key, a space, the type label, " | ", the
   * description and a newline, so five characters besides the three texts.
   */
  function FlagLine(name: string, data: FlagData): (line: string)
    ensures |line| == |name| + |EnumToStr(data.kind)| + |data.description| + 5
  {
    name + " " + EnumToStr(data.kind) + " | " + data.description + "\n"
  }

  function FlagLines(es: Registry): (lines: seq<string>)
    ensures |lines| == |es|
    ensures forall i | 0 <= i < |es| :: lines[i] == FlagLine(es[i].0, es[i].1)
  {
    seq(|es|, i requires 0 <= i < |es| => FlagLine(es[i].0, es[i].1))
  }

  /** In the help text of a registry in key order, each flag line is in place and the lines follow key order. */
  lemma FlagLinesInOrder(es: Registry)
    requires Sorted(es)
    ensures InPlace(FlagLines(es), Concat(FlagLines(es)))
    ensures var lines := FlagLines(es);
      forall i, j | 0 <= i < j < |lines| :: Offset(lines, i) < Offset(lines, j) && Less(es[i].0, es[j].0)
  {
    var lines := FlagLines(es);
    assert forall i | 0 <= i < |lines| :: |lines[i]| > 0 by {
      forall i | 0 <= i < |lines| ensures |lines[i]| > 0 {
        assert lines[i] == FlagLine(es[i].0, es[i].1);
      }
    }
    LinesInOrder(lines);
  }

  predicate StartsWithDash(tok: string)
  {
    |tok| > 0 && tok[0] == '-'
  }

  /** `has_equal`: a token that starts with '-' and has an '=' somewhere after it. */
  predicate HasEqual(tok: string)
  {
    StartsWithDash(tok) && '=' in tok
  }

  /**
   * The character loop of `get_equal`, from state (first, store). Before
   * each character, a `store` that is a registered key becomes `first` and
   * is cleared, and that character is dropped; otherwise an '=' is dropped
   * and any other character appended to `store`.
   */
  function EqualScan(reg: Registry, s: string, first: string, store: string): (r: (string, string))
    ensures '=' !in store ==> '=' !in r.1
    ensures first == "" || Contains(reg, first) ==> r.0 == "" || Contains(reg, r.0)
    decreases |s|
  {
    if s == [] then (first, store)
    else if Contains(reg, store) then EqualScan(reg, s[1..], store, "")
    else if s[0] == '=' then EqualScan(reg, s[1..], first, store)
    else EqualScan(reg, s[1..], first, store + [s[0]])
  }

  /**
   * `get_equal`: (flag key, value) of a `-key=value` token. The value holds
   * no '=', and the key is empty or registered.
   */
  function SplitEqual(reg: Registry, tok: string): (r: (string, string))
    ensures '=' !in r.1
    ensures r.0 == "" || Contains(reg, r.0)
  {
    EqualScan(reg, tok, "", "")
  }

  /** How the parse loop treats one token it examines. */
  datatype Token =
    | Stop                                                      // help is shown and the parse ends
    | Plain                                                     // appended to the clean arguments
    | FlagTok(key: string, data: FlagData, inline: Option<string>)  // a registered flag

  /** What the parse needs besides the tokens. */
  datatype Config = Config(reg: Registry, helpKey: string, autoHelp: bool, conv: Conversions)

  /**
   * The classification at the head of the loop body of `parse`: the help
   * stop, a positional token, or a registered flag with its key (the part
   * before '=', or the whole token), its registry entry and its inline
   * value. A flag token's entry is the registry's own, and its key is never
   * the help key.
   */
  function Classify(cfg: Config, tok: string): (t: Token)
    ensures t.FlagTok? ==> Get(cfg.reg, t.key) == Some(t.data) && t.key != cfg.helpKey
  {
    var eqSign := HasEqual(tok);
    var values := if eqSign then SplitEqual(cfg.reg, tok) else ("", "");
    var flagName := if eqSign then values.0 else tok;
    var found := Get(cfg.reg, flagName);
    if flagName == cfg.helpKey || (cfg.autoHelp && StartsWithDash(tok) && found.None?) then Stop
    else if found.None? then Plain
    else FlagTok(flagName, found.value, if eqSign then Some(values.1) else None)
  }

  /** What a parse changes: clean arguments, destinations, and whether help was shown. */
  datatype ParseState = ParseState(clean: seq<string>, dests: map<string, Value>, help: bool)

  /**
   * The parse of the tokens `toks` from state `st`. `None` when a non-bool
   * flag without '=' is the last token: the source then reads past the end
   * of `argv`. Help once shown stays shown; `FlagProperties.CleanArePositionals`
   * says what the clean arguments become.
   */
  function Walk(cfg: Config, toks: seq<string>, st: ParseState): (r: Option<ParseState>)
    ensures r.Some? && st.help ==> r.value.help
    decreases |toks|
  {
    if toks == [] then Some(st)
    else match Classify(cfg, toks[0])
      case Stop => Some(st.(help := true))
      case Plain => Walk(cfg, toks[1..], st.(clean := st.clean + [toks[0]]))
      case FlagTok(key, data, inline) =>
        if data.kind == BoolKind || inline.Some? then
          Walk(cfg, toks[1..], st.(dests := Write(cfg.conv, st.dests, key, data.kind, if inline.Some? then inline.value else "")))
        else if |toks| >= 2 then
          Walk(cfg, toks[2..], st.(dests := Write(cfg.conv, st.dests, key, data.kind, toks[1])))
        else None
  }

  /** Every destination belongs to a registered flag and holds a value of its type. */
  ghost predicate Typed(reg: Registry, dests: map<string, Value>)
  {
    (forall k :: k in dests <==> Contains(reg, k)) &&
    (forall k | k in dests :: KindOf(dests[k]) == Get(reg, k).value.kind)
  }

  lemma WriteTyped(conv: Conversions, reg: Registry, dests: map<string, Value>, key: string, raw: string)
    requires Typed(reg, dests) && Contains(reg, key)
    ensures Typed(reg, Write(conv, dests, key, Get(reg, key).value.kind, raw))
  {
    var kind := Get(reg, key).value.kind;
    if kind == BoolKind {
      TypedUpdate(reg, dests, key, Bool(true));
    } else {
      match Convert(conv, kind, raw)
      case Some(v) => TypedUpdate(reg, dests, key, v);
      case None =>
    }
  }

  lemma TypedUpdate(reg: Registry, dests: map<string, Value>, key: string, v: Value)
    requires Typed(reg, dests) && Contains(reg, key) && KindOf(v) == Get(reg, key).value.kind
    ensures Typed(reg, dests[key := v])
  {
  }

  /** A parse keeps every destination typed as its flag. */
  lemma {:induction false} WalkTyped(cfg: Config, toks: seq<string>, st: ParseState)
    requires Typed(cfg.reg, st.dests)
    ensures Walk(cfg, toks, st).Some? ==> Typed(cfg.reg, Walk(cfg, toks, st).value.dests)
    decreases |toks|
  {
    if toks != [] {
      match Classify(cfg, toks[0])
      case Stop =>
      case Plain =>
        WalkTyped(cfg, toks[1..], st.(clean := st.clean + [toks[0]]));
      case FlagTok(key, data, inline) =>
        assert Get(cfg.reg, key) == Some(data);
        if data.kind == BoolKind || inline.Some? {
          var raw := if inline.Some? then inline.value else "";
          WriteTyped(cfg.conv, cfg.reg, st.dests, key, raw);
          WalkTyped(cfg, toks[1..], st.(dests := Write(cfg.conv, st.dests, key, data.kind, raw)));
        } else if |toks| >= 2 {
          WriteTyped(cfg.conv, cfg.reg, st.dests, key, toks[1]);
          WalkTyped(cfg, toks[2..], st.(dests := Write(cfg.conv, st.dests, key, data.kind, toks[1])));
        }
    }
  }

  lemma WalkStop(cfg: Config, toks: seq<string>, st: ParseState)
    requires toks != [] && Classify(cfg, toks[0]).Stop?
    ensures Walk(cfg, toks, st) == Some(st.(help := true))
  {
  }

  lemma WalkPlain(cfg: Config, toks: seq<string>, st: ParseState)
    requires toks != [] && Classify(cfg, toks[0]).Plain?
    ensures Walk(cfg, toks, st) == Walk(cfg, toks[1..], st.(clean := st.clean + [toks[0]]))
  {
  }

  /** One flag token: its destination is written and one or two tokens are consumed. */
  lemma WalkFlag(cfg: Config, toks: seq<string>, st: ParseState, raw: string)
    requires toks != [] && Classify(cfg, toks[0]).FlagTok?
    requires var t := Classify(cfg, toks[0]);
      raw == if t.data.kind == BoolKind || t.inline.Some? then (if t.inline.Some? then t.inline.value else "")
             else if |toks| >= 2 then toks[1] else ""
    ensures var t := Classify(cfg, toks[0]);
      var next := st.(dests := Write(cfg.conv, st.dests, t.key, t.data.kind, raw));
      if t.data.kind == BoolKind || t.inline.Some? then Walk(cfg, toks, st) == Walk(cfg, toks[1..], next)
      else if |toks| >= 2 then Walk(cfg, toks, st) == Walk(cfg, toks[2..], next)
      else Walk(cfg, toks, st) == None
  {
  }

  class Flags {
    /** `argv[0..argc)`. */
    const argv: seq<string>
    /** `ah`: an unregistered dash-led token shows help. */
    const autoHelp: bool
    /** `hkw`: "-" followed by the help keyword. */
    const helpKey: string
    /** `flags`: the registry, keyed by "-" + name. */
    var flags: Registry
    /** The destinations the flags are bound to, by flag key. */
    var dests: map<string, Value>
    /** `clean_args`. */
    var cleanArgs: seq<string>
    /** Whether `help()` has been called; its console output is not modelled. */
    var helpShown: bool

    ghost predicate Valid()
      reads this
    {
      Sorted(flags) && Typed(flags, dests)
    }

    function Cfg(conv: Conversions): Config
      reads this
    {
      Config(flags, helpKey, autoHelp, conv)
    }

    function State(): ParseState
      reads this
    {
      ParseState(cleanArgs, dests, helpShown)
    }

    /** The tokens `parse` walks: `argv[1..argc)`. */
    function Args(): seq<string>
    {
      Rest(1)
    }

    /** The tokens from index `k` on. */
    function Rest(k: nat): seq<string>
    {
      if k <= |argv| then argv[k..] else []
    }

    constructor (argv: seq<string>, autoHelp: bool, helpKeyword: string)
      ensures Valid()
      ensures this.argv == argv && this.autoHelp == autoHelp && helpKey == "-" + helpKeyword
      ensures flags == [] && dests == map[] && cleanArgs == [] && !helpShown
    {
      this.argv := argv;
      this.autoHelp := autoHelp;
      helpKey := "-" + helpKeyword;
      flags := [];
      dests := map[];
      cleanArgs := [];
      helpShown := false;
    }

    /**
     * One of the five `set` overloads, chosen by the type of `buff`: binds
     * a destination holding `buff` to the flag "-" + name, and returns the
     * parser itself.
     */
    method Set(buff: Value, name: string, description: string) returns (self: Flags)
      requires Valid()
      modifies this
      ensures Valid() && self == this
      ensures flags == Put(old(flags), "-" + name, FlagData(KindOf(buff), description))
      ensures dests == old(dests)["-" + name := buff]
      ensures cleanArgs == old(cleanArgs) && helpShown == old(helpShown)
    {
      AddFlag(KindOf(buff), buff, name, description);
      self := this;
    }

    /** `add_flag`: the entry under "-" + name is created or replaced. */
    method AddFlag(t: Kind, buff: Value, name: string, description: string)
      requires Valid() && KindOf(buff) == t
      modifies this
      ensures Valid()
      ensures flags == Put(old(flags), "-" + name, FlagData(t, description))
      ensures dests == old(dests)["-" + name := buff]
      ensures cleanArgs == old(cleanArgs) && helpShown == old(helpShown)
    {
      var data := FlagData(t, description);
      var flagName := "-" + name;
      PutSorted(flags, flagName, data);
      forall k ensures Get(Put(flags, flagName, data), k) == if k == flagName then Some(data) else Get(flags, k) {
        PutGet(flags, flagName, data, k);
      }
      flags := Put(flags, flagName, data);
      dests := dests[flagName := buff];
    }

    /** `get_equal`. */
    method GetEqual(str: string) returns (first: string, second: string)
      ensures (first, second) == SplitEqual(flags, str)
    {
      first := "";
      var store := "";
      for j := 0 to |str|
        invariant EqualScan(flags, str[j..], first, store) == SplitEqual(flags, str)
      {
        var c := str[j];
        assert str[j..][1..] == str[j + 1..];
        if Contains(flags, store) {
          first := store;
          store := "";
          continue;
        }
        if c == '=' {
          continue;
        }
        store := store + [c];
      }
      second := store;
    }

    /**
     * `parse_type`: writes the flag's destination and reports whether the
     * next token is its value (a non-bool flag written without '='). The
     * value token is skipped whether or not its conversion succeeds.
     */
    method ParseType(conv: Conversions, key: string, flag: FlagData, value: string, i: nat, eq: bool)
      returns (skipNext: bool)
      requires flag.kind == BoolKind || eq || i + 1 < |argv|
      modifies this`dests
      ensures skipNext == (flag.kind != BoolKind && !eq)
      ensures dests == Write(conv, old(dests), key, flag.kind,
                             if flag.kind == BoolKind || eq then value else argv[i + 1])
    {
      if flag.kind == BoolKind {
        dests := dests[key := Bool(true)];
        return false;
      }
      var raw := if eq then value else argv[i + 1];
      skipNext := !eq;
      var converted := Convert(conv, flag.kind, raw);
      if converted.Some? {
        dests := dests[key := converted.value];
      }
    }

    /** `help`: only the fact that it ran is kept. */
    method Help()
      modifies this`helpShown
      ensures helpShown
    {
      helpShown := true;
    }

    /**
     * `parse`: walks `argv[1..argc)` (never `argv[0]`) as `Walk` does. The
     * source reads past the end of `argv` when a non-bool flag without '='
     * comes last; the precondition excludes that.
     */
    method Parse(conv: Conversions)
      requires Valid()
      requires Walk(Cfg(conv), Args(), State()).Some?
      modifies this`cleanArgs, this`dests, this`helpShown
      ensures Valid()
      ensures State() == old(Walk(Cfg(conv), Args(), State())).value
    {
      ghost var cfg := Cfg(conv);
      ghost var goal := Walk(cfg, Args(), State());
      WalkTyped(cfg, Args(), State());
      var skipNext := false;
      var i := 1;
      ghost var k := 1;
      while i < |argv|
        invariant 1 <= i && (skipNext ==> i < |argv|)
        invariant k == if skipNext then i + 1 else i
        invariant Walk(cfg, Rest(k), State()) == goal
      {
        if skipNext {
          skipNext := false;
          i := i + 1;
          continue;
        }
        assert Rest(i) == argv[i..] && Cfg(conv) == cfg;
        var stop;
        stop, skipNext := ParseToken(conv, i);
        if stop {
          return;
        }
        k := if skipNext then i + 2 else i + 1;
        assert Rest(k) == if skipNext then argv[i + 2..] else argv[i + 1..];
        i := i + 1;
      }
    }

    /**
     * The body of the loop of `parse` for the token at index `i`: help and
     * stop, or append it to the clean arguments, or hand it to `parse_type`.
     */
    method ParseToken(conv: Conversions, i: nat) returns (stop: bool, skipNext: bool)
      requires 1 <= i < |argv|
      requires Walk(Cfg(conv), argv[i..], State()).Some?
      modifies this`cleanArgs, this`dests, this`helpShown
      ensures skipNext ==> !stop && i + 1 < |argv|
      ensures var t := Classify(Cfg(conv), argv[i]);
        (stop <==> t.Stop?) &&
        (skipNext <==> t.FlagTok? && t.data.kind != BoolKind && t.inline.None?) &&
        State() == match t
          case Stop => old(State()).(help := true)
          case Plain => old(State()).(clean := old(cleanArgs) + [argv[i]])
          case FlagTok(key, data, inline) =>
            old(State()).(dests := Write(conv, old(dests), key, data.kind,
                                         if inline.Some? then inline.value else if skipNext then argv[i + 1] else ""))
      ensures stop ==> State() == old(Walk(Cfg(conv), argv[i..], State())).value
      ensures !stop ==> Walk(Cfg(conv), if skipNext then argv[i + 2..] else argv[i + 1..], State())
                        == old(Walk(Cfg(conv), argv[i..], State()))
    {
      var tok := argv[i];
      ghost var cfg, st, toks := Cfg(conv), State(), argv[i..];
      assert toks[0] == tok && toks[1..] == argv[i + 1..];
      var eqSign := HasEqual(tok);
      var first, second := "", "";
      if eqSign {
        first, second := GetEqual(tok);
      }
      var flagName := if eqSign then first else tok;
      var isFlag := Contains(flags, flagName);
      ghost var token := Classify(cfg, tok);
      if flagName == helpKey || (autoHelp && StartsWithDash(tok) && !isFlag) {
        assert token == Stop;
        WalkStop(cfg, toks, st);
        Help();
        return true, false;
      }
      if !isFlag {
        assert token == Plain;
        WalkPlain(cfg, toks, st);
        cleanArgs := cleanArgs + [tok];
        return false, false;
      }
      var flag := Get(flags, flagName).value;
      assert token == FlagTok(flagName, flag, if eqSign then Some(second) else None);
      ghost var raw := if flag.kind == BoolKind || eqSign then second else if i + 1 < |argv| then argv[i + 1] else "";
      WalkFlag(cfg, toks, st, raw);
      stop := false;
      skipNext := ParseType(conv, flagName, flag, second, i, eqSign);
      if skipNext {
        assert toks[2..] == argv[i + 2..];
      }
    }

    /**
     * `help_str`: the line of each flag (name, type label, description) in
     * place, the lines in ascending key order.
     */
    method HelpStr() returns (r: string)
      requires Sorted(flags)
      ensures r == Concat(FlagLines(flags))
      ensures InPlace(FlagLines(flags), r)
      ensures var lines := FlagLines(flags);
        forall i, j | 0 <= i < j < |lines| :: Offset(lines, i) < Offset(lines, j) && Less(flags[i].0, flags[j].0)
    {
      ghost var lines := FlagLines(flags);
      r := "";
      for i := 0 to |flags|
        invariant r == Concat(lines[..i])
      {
        ConcatSnoc(lines, i);
        r := r + FlagLine(flags[i].0, flags[i].1);
      }
      assert lines[..|flags|] == lines;
      FlagLinesInOrder(flags);
    }

    /** `get_args`: the clean arguments collected so far. */
    function GetArgs(): (args: seq<string>)
      reads this
      ensures args == cleanArgs
    {
      cleanArgs
    }
  }
}
