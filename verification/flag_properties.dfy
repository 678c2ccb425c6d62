/**
 * Properties of the flag parser: registration, the `-key=value` split, and
 * what a parse does with each token of the argument vector.
 */
module FlagProperties {
  import opened Optional
  import opened Strings
  import opened OrderedMap
  import opened FlagParser

  // ----- registration -----

  /** Registering a name a second time replaces its entry: the last registration wins. */
  lemma {:induction false} RegisterAgainReplaces(reg: Registry, k: string, first: FlagData, second: FlagData)
    ensures Put(Put(reg, k, first), k, second) == Put(reg, k, second)
  {
    if reg != [] && reg[0].0 != k && !Less(k, reg[0].0) {
      RegisterAgainReplaces(reg[1..], k, first, second);
    } else if reg != [] && reg[0].0 != k {
      LessIrreflexive(k);
    }
  }

  /** The kind a type label of the help text names. */
  function LabelKind(name: string): Option<Kind>
  {
    if name == "bool" then Some(BoolKind)
    else if name == "Big int" then Some(BigIntKind)
    else if name == "number" then Some(IntKind)
    else if name == "string" then Some(StringKind)
    else if name == "floating point number" then Some(FloatKind)
    else None
  }

  /** The type label of every kind names that kind again. */
  lemma LabelNamesKind(kind: Kind)
    ensures LabelKind(EnumToStr(kind)) == Some(kind)
  {
  }

  /** The five type labels of the help text are pairwise distinct. */
  lemma TypeLabelsDistinct(a: Kind, b: Kind)
    requires a != b
    ensures EnumToStr(a) != EnumToStr(b)
  {
    LabelNamesKind(a);
    LabelNamesKind(b);
  }

  // ----- the `-key=value` split -----

  /**
   * `has_equal` holds exactly for a token whose first character is '-' and
   * that has an '=' at some later position.
   */
  lemma HasEqualAt(tok: string)
    ensures HasEqual(tok) <==> |tok| > 1 && tok[0] == '-' && exists i | 1 <= i < |tok| :: tok[i] == '='
  {
    if HasEqual(tok) {
      var i :| 0 <= i < |tok| && tok[i] == '=';
      assert i != 0;
    }
  }

  /** Scanning text that holds no '=' and meets no registered key just appends it. */
  lemma {:induction false} ScanPlain(reg: Registry, s: string, first: string, store: string)
    requires '=' !in s
    requires forall m | 0 <= m < |s| :: !Contains(reg, store + s[..m])
    ensures EqualScan(reg, s, first, store) == (first, store + s)
    decreases |s|
  {
    if s != [] {
      assert !Contains(reg, store + s[..0]);
      assert store + s[..0] == store;
      assert s[0] in s;
      forall m | 0 <= m < |s[1..]| ensures !Contains(reg, store + [s[0]] + s[1..][..m]) {
        assert store + [s[0]] + s[1..][..m] == store + s[..m + 1];
      }
      ScanPlain(reg, s[1..], first, store + [s[0]]);
      assert store + [s[0]] + s[1..] == store + s;
    }
  }

  /** The scan of `a + b` continues the scan of `a`. */
  lemma {:induction false} ScanAppend(reg: Registry, a: string, b: string, first: string, store: string)
    ensures EqualScan(reg, a + b, first, store)
         == EqualScan(reg, b, EqualScan(reg, a, first, store).0, EqualScan(reg, a, first, store).1)
    decreases |a|
  {
    if a != [] {
      assert (a + b)[0] == a[0] && (a + b)[1..] == a[1..] + b;
      if Contains(reg, store) {
        ScanAppend(reg, a[1..], b, store, "");
      } else if a[0] == '=' {
        ScanAppend(reg, a[1..], b, first, store);
      } else {
        ScanAppend(reg, a[1..], b, first, store + [a[0]]);
      }
    } else {
      assert a + b == b;
    }
  }

  /**
   * `-key=value` splits into (key, value) when the key is registered, no
   * shorter prefix of it is, neither part holds an '=', and no prefix of
   * the value (short of all of it) is a registered key.
   */
  lemma SplitEqualFlagForm(reg: Registry, k: string, v: string)
    requires Contains(reg, k) && '=' !in k && '=' !in v
    requires forall m | 0 <= m < |k| :: !Contains(reg, k[..m])
    requires forall m | 0 <= m < |v| :: !Contains(reg, v[..m])
    ensures SplitEqual(reg, k + "=" + v) == (k, v)
  {
    assert k + "=" + v == k + ("=" + v);
    ScanAppend(reg, k, "=" + v, "", "");
    forall m | 0 <= m < |k| ensures !Contains(reg, "" + k[..m]) {
      assert "" + k[..m] == k[..m];
    }
    ScanPlain(reg, k, "", "");
    assert "" + k == k;
    assert ("=" + v)[1..] == v;
    forall m | 0 <= m < |v| ensures !Contains(reg, "" + v[..m]) {
      assert "" + v[..m] == v[..m];
    }
    ScanPlain(reg, v, k, "");
    assert "" + v == v;
  }

  /** With only `-s` registered, `-s=hello` splits into ("-s", "hello"). */
  lemma SplitEqualExample(d: FlagData)
    ensures SplitEqual([("-s", d)], "-s=hello") == ("-s", "hello")
  {
    var reg := [("-s", d)];
    forall m | 0 <= m < 2 ensures !Contains(reg, "-s"[..m]) {
      GetSingle("-s", d, "-s"[..m]);
      assert |"-s"[..m]| == m;
    }
    forall m | 0 <= m < 5 ensures !Contains(reg, "hello"[..m]) {
      GetSingle("-s", d, "hello"[..m]);
      if m == 2 {
        assert "hello"[..m][0] == 'h';
      }
    }
    GetSingle("-s", d, "-s");
    SplitEqualFlagForm(reg, "-s", "hello");
    assert "-s" + "=" + "hello" == "-s=hello";
  }

  /**
   * The character right after a registered prefix is dropped: with only
   * `-s` registered, `-sx=1` splits into ("-s", "1").
   */
  lemma SplitEqualDropsNextChar(d: FlagData)
    ensures SplitEqual([("-s", d)], "-sx=1") == ("-s", "1")
  {
    var reg := [("-s", d)];
    GetSingle("-s", d, "");
    GetSingle("-s", d, "-");
    GetSingle("-s", d, "-s");
    assert "-sx=1"[1..] == "sx=1" && "sx=1"[1..] == "x=1" && "x=1"[1..] == "=1" && "=1"[1..] == "1";
    assert !Contains(reg, "") && !Contains(reg, "-") && Contains(reg, "-s");
    assert "" + ['-'] == "-" && "" + ['1'] == "1";
    assert EqualScan(reg, "-sx=1", "", "") == EqualScan(reg, "sx=1", "", "-");
    assert EqualScan(reg, "sx=1", "", "-") == EqualScan(reg, "x=1", "", "-s");
    assert EqualScan(reg, "x=1", "", "-s") == EqualScan(reg, "=1", "-s", "");
    assert EqualScan(reg, "=1", "-s", "") == EqualScan(reg, "1", "-s", "");
    assert EqualScan(reg, "1", "-s", "") == EqualScan(reg, "", "-s", "1");
  }

  // ----- single tokens -----

  /** The help keyword, written bare, stops the parse. */
  lemma HelpKeywordStops(cfg: Config)
    requires '=' !in cfg.helpKey
    ensures Classify(cfg, cfg.helpKey) == Stop
  {
  }

  /** With auto-help on, an unregistered dash-led token without '=' stops the parse. */
  lemma AutoHelpStops(cfg: Config, tok: string)
    requires cfg.autoHelp && StartsWithDash(tok) && '=' !in tok && !Contains(cfg.reg, tok)
    ensures Classify(cfg, tok) == Stop
  {
  }

  /** With auto-help off, an unregistered token other than the help keyword is positional. */
  lemma UnknownIsPositional(cfg: Config, tok: string)
    requires !cfg.autoHelp && '=' !in tok && !Contains(cfg.reg, tok) && tok != cfg.helpKey
    ensures Classify(cfg, tok) == Plain
  {
  }

  /** A token that stops the parse shows help; no later token is examined. */
  lemma StopIgnoresRest(cfg: Config, tok: string, rest: seq<string>, other: seq<string>, st: ParseState)
    requires Classify(cfg, tok) == Stop
    ensures Walk(cfg, [tok] + rest, st) == Some(st.(help := true))
    ensures Walk(cfg, [tok] + rest, st) == Walk(cfg, [tok] + other, st)
  {
  }

  /** A registered bool flag becomes true and takes no value token. */
  lemma BoolFlagTakesNoValue(cfg: Config, k: string, rest: seq<string>, st: ParseState)
    requires '=' !in k && k != cfg.helpKey
    requires Contains(cfg.reg, k) && Get(cfg.reg, k).value.kind == BoolKind
    ensures Walk(cfg, [k] + rest, st) == Walk(cfg, rest, st.(dests := st.dests[k := Bool(true)]))
  {
    assert ([k] + rest)[1..] == rest;
  }

  /**
   * A registered bool flag written `-x=anything` still becomes true, and
   * also takes no value token.
   */
  lemma BoolFlagIgnoresInlineValue(cfg: Config, k: string, v: string, rest: seq<string>, st: ParseState)
    requires StartsWithDash(k) && '=' !in k && '=' !in v && k != cfg.helpKey
    requires Contains(cfg.reg, k) && Get(cfg.reg, k).value.kind == BoolKind
    requires forall m | 0 <= m < |k| :: !Contains(cfg.reg, k[..m])
    requires forall m | 0 <= m < |v| :: !Contains(cfg.reg, v[..m])
    ensures Walk(cfg, [k + "=" + v] + rest, st) == Walk(cfg, rest, st.(dests := st.dests[k := Bool(true)]))
  {
    var tok := k + "=" + v;
    assert tok[|k|] == '=' && tok[0] == k[0];
    SplitEqualFlagForm(cfg.reg, k, v);
    assert ([tok] + rest)[1..] == rest;
  }

  /**
   * `-key=value` and `-key value` do the same for a non-bool flag: the
   * destination takes `value`, and the parse resumes after it.
   */
  lemma EqualFormMatchesBare(cfg: Config, k: string, v: string, rest: seq<string>, st: ParseState)
    requires StartsWithDash(k) && '=' !in k && '=' !in v && k != cfg.helpKey
    requires Contains(cfg.reg, k) && Get(cfg.reg, k).value.kind != BoolKind
    requires forall m | 0 <= m < |k| :: !Contains(cfg.reg, k[..m])
    requires forall m | 0 <= m < |v| :: !Contains(cfg.reg, v[..m])
    ensures var next := st.(dests := Write(cfg.conv, st.dests, k, Get(cfg.reg, k).value.kind, v));
      Walk(cfg, [k + "=" + v] + rest, st) == Walk(cfg, rest, next) &&
      Walk(cfg, [k, v] + rest, st) == Walk(cfg, rest, next)
  {
    var tok := k + "=" + v;
    assert tok[|k|] == '=' && tok[0] == k[0];
    SplitEqualFlagForm(cfg.reg, k, v);
    assert ([tok] + rest)[1..] == rest;
    assert ([k, v] + rest)[2..] == rest;
  }

  /**
   * A value the conversion rejects leaves the destination as it was, and
   * the value token is skipped all the same.
   */
  lemma FailedConversionSkipsValue(cfg: Config, k: string, v: string, rest: seq<string>, st: ParseState)
    requires '=' !in k && k != cfg.helpKey
    requires Contains(cfg.reg, k) && Get(cfg.reg, k).value.kind != BoolKind
    requires Convert(cfg.conv, Get(cfg.reg, k).value.kind, v).None?
    ensures Walk(cfg, [k, v] + rest, st) == Walk(cfg, rest, st)
  {
    assert ([k, v] + rest)[2..] == rest;
  }

  /** A non-bool flag without '=' as the last token has no value to read. */
  lemma MissingValue(cfg: Config, k: string, st: ParseState)
    requires '=' !in k && k != cfg.helpKey
    requires Contains(cfg.reg, k) && Get(cfg.reg, k).value.kind != BoolKind
    ensures Walk(cfg, [k], st) == None
  {
  }

  // ----- the fate of every token -----

  /** What became of a token of the argument vector. */
  datatype Role =
    | Positional   // appended verbatim to the clean arguments
    | FlagName     // a registered flag, bare or with '='
    | FlagValue    // the value token after a bare non-bool flag
    | HelpStop     // help was shown and the parse ended here
    | Unreached    // after the help stop; never examined

  /** The role of each token, in the order the parse meets them. */
  function Roles(cfg: Config, toks: seq<string>): (roles: seq<Role>)
    ensures |roles| == |toks|
    decreases |toks|
  {
    if toks == [] then []
    else match Classify(cfg, toks[0])
      case Stop => [HelpStop] + seq(|toks| - 1, _ => Unreached)
      case Plain => [Positional] + Roles(cfg, toks[1..])
      case FlagTok(_, data, inline) =>
        if data.kind != BoolKind && inline.None? && |toks| >= 2 then [FlagName, FlagValue] + Roles(cfg, toks[2..])
        else [FlagName] + Roles(cfg, toks[1..])
  }

  /** The tokens whose role is `Positional`, in their original order. */
  function Positionals(toks: seq<string>, roles: seq<Role>): seq<string>
    requires |toks| == |roles|
  {
    if toks == [] then []
    else (if roles[0] == Positional then [toks[0]] else []) + Positionals(toks[1..], roles[1..])
  }

  lemma {:induction false} NoPositionals(toks: seq<string>, roles: seq<Role>)
    requires |toks| == |roles| && Positional !in roles
    ensures Positionals(toks, roles) == []
  {
    if toks != [] {
      assert roles[0] in roles;
      assert forall r | r in roles[1..] :: r in roles;
      NoPositionals(toks[1..], roles[1..]);
    }
  }

  /** The clean arguments gain exactly the positional tokens, in order. */
  lemma {:induction false} CleanArePositionals(cfg: Config, toks: seq<string>, st: ParseState)
    requires Walk(cfg, toks, st).Some?
    ensures Walk(cfg, toks, st).value.clean == st.clean + Positionals(toks, Roles(cfg, toks))
    decreases |toks|
  {
    if toks != [] {
      var rest, next := CleanStep(cfg, toks, st);
      CleanArePositionals(cfg, rest, next);
    }
  }

  /**
   * One step of the parse: it goes on from the tokens `rest` in state
   * `next`, and the clean arguments plus the positional tokens still ahead
   * stay the same.
   */
  lemma CleanStep(cfg: Config, toks: seq<string>, st: ParseState) returns (rest: seq<string>, next: ParseState)
    requires toks != [] && Walk(cfg, toks, st).Some?
    ensures |rest| < |toks|
    ensures Walk(cfg, rest, next) == Walk(cfg, toks, st)
    ensures next.clean + Positionals(rest, Roles(cfg, rest)) == st.clean + Positionals(toks, Roles(cfg, toks))
  {
    var t := Classify(cfg, toks[0]);
    PositionalsStep(cfg, toks);
    if t.Stop? {
      rest, next := [], st.(help := true);
    } else if t.Plain? {
      rest, next := toks[1..], st.(clean := st.clean + [toks[0]]);
      assert next.clean + Positionals(rest, Roles(cfg, rest)) == st.clean + ([toks[0]] + Positionals(rest, Roles(cfg, rest)));
    } else {
      var single := t.data.kind == BoolKind || t.inline.Some?;
      var raw := if single then (if t.inline.Some? then t.inline.value else "") else toks[1];
      rest := if single then toks[1..] else toks[2..];
      next := st.(dests := Write(cfg.conv, st.dests, t.key, t.data.kind, raw));
    }
  }

  /** How the first token's role adds to the positional tokens. */
  lemma PositionalsStep(cfg: Config, toks: seq<string>)
    requires toks != []
    ensures var t := Classify(cfg, toks[0]);
      var p := Positionals(toks, Roles(cfg, toks));
      if t.Stop? then p == []
      else if t.Plain? then p == [toks[0]] + Positionals(toks[1..], Roles(cfg, toks[1..]))
      else if t.data.kind == BoolKind || t.inline.Some? || |toks| < 2 then p == Positionals(toks[1..], Roles(cfg, toks[1..]))
      else p == Positionals(toks[2..], Roles(cfg, toks[2..]))
  {
    var roles := Roles(cfg, toks);
    match Classify(cfg, toks[0])
    case Stop =>
      assert roles[1..] == seq(|toks| - 1, _ => Unreached);
      NoPositionals(toks[1..], roles[1..]);
    case Plain =>
      assert roles[1..] == Roles(cfg, toks[1..]);
    case FlagTok(_, data, inline) =>
      if data.kind != BoolKind && inline.None? && |toks| >= 2 {
        assert roles[1..][1..] == Roles(cfg, toks[2..]) && toks[1..][1..] == toks[2..];
        assert Positionals(toks[1..], roles[1..]) == Positionals(toks[2..], roles[1..][1..]);
      } else {
        assert roles[1..] == Roles(cfg, toks[1..]);
      }
  }

  /** Help is shown exactly when some token stopped the parse. */
  lemma {:induction false} HelpMeansStop(cfg: Config, toks: seq<string>, st: ParseState)
    requires Walk(cfg, toks, st).Some?
    ensures Walk(cfg, toks, st).value.help == (st.help || HelpStop in Roles(cfg, toks))
    decreases |toks|
  {
    if toks == [] {
      return;
    }
    var roles := Roles(cfg, toks);
    match Classify(cfg, toks[0])
    case Stop =>
      assert roles[0] == HelpStop;
    case Plain =>
      var next := st.(clean := st.clean + [toks[0]]);
      HelpMeansStop(cfg, toks[1..], next);
      assert roles == [Positional] + Roles(cfg, toks[1..]);
    case FlagTok(key, data, inline) =>
      if data.kind == BoolKind || inline.Some? {
        var next := st.(dests := Write(cfg.conv, st.dests, key, data.kind, if inline.Some? then inline.value else ""));
        HelpMeansStop(cfg, toks[1..], next);
        assert roles == [FlagName] + Roles(cfg, toks[1..]);
      } else {
        var next := st.(dests := Write(cfg.conv, st.dests, key, data.kind, toks[1]));
        HelpMeansStop(cfg, toks[2..], next);
        assert roles == [FlagName, FlagValue] + Roles(cfg, toks[2..]);
      }
  }

  /** After the token that stopped the parse, no token has any other role than `Unreached`. */
  lemma {:induction false} NothingAfterStop(cfg: Config, toks: seq<string>, j: nat, l: nat)
    requires j < l < |toks| && Roles(cfg, toks)[j] == HelpStop
    ensures Roles(cfg, toks)[l] == Unreached
    decreases |toks|
  {
    var roles := Roles(cfg, toks);
    match Classify(cfg, toks[0])
    case Stop =>
    case Plain =>
      NothingAfterStop(cfg, toks[1..], j - 1, l - 1);
    case FlagTok(_, data, inline) =>
      if data.kind != BoolKind && inline.None? && |toks| >= 2 {
        NothingAfterStop(cfg, toks[2..], j - 2, l - 2);
      } else {
        NothingAfterStop(cfg, toks[1..], j - 1, l - 1);
      }
  }

  /** A value token comes right after a bare, registered, non-bool flag. */
  lemma {:induction false} ValueFollowsFlag(cfg: Config, toks: seq<string>, j: nat)
    requires j < |toks| && Roles(cfg, toks)[j] == FlagValue
    ensures 0 < j && Roles(cfg, toks)[j - 1] == FlagName
    ensures var t := Classify(cfg, toks[j - 1]); t.FlagTok? && t.data.kind != BoolKind && t.inline.None?
    decreases |toks|
  {
    match Classify(cfg, toks[0])
    case Stop =>
    case Plain =>
      ValueFollowsFlag(cfg, toks[1..], j - 1);
    case FlagTok(_, data, inline) =>
      if data.kind != BoolKind && inline.None? && |toks| >= 2 {
        if j > 1 {
          ValueFollowsFlag(cfg, toks[2..], j - 2);
        }
      } else {
        ValueFollowsFlag(cfg, toks[1..], j - 1);
      }
  }

  /**
   * Every role but `FlagValue` and `Unreached` agrees with the token's own
   * classification: positional tokens are unregistered, flag tokens are
   * registered, and the stop is a help token.
   */
  lemma {:induction false} RolesFollowClassify(cfg: Config, toks: seq<string>, j: nat)
    requires j < |toks|
    ensures Roles(cfg, toks)[j] == Positional ==> Classify(cfg, toks[j]) == Plain
    ensures Roles(cfg, toks)[j] == FlagName ==> Classify(cfg, toks[j]).FlagTok?
    ensures Roles(cfg, toks)[j] == HelpStop ==> Classify(cfg, toks[j]) == Stop
    decreases |toks|
  {
    if j > 0 {
      match Classify(cfg, toks[0])
      case Stop =>
      case Plain =>
        RolesFollowClassify(cfg, toks[1..], j - 1);
      case FlagTok(_, data, inline) =>
        if data.kind != BoolKind && inline.None? && |toks| >= 2 {
          if j > 1 {
            RolesFollowClassify(cfg, toks[2..], j - 2);
          }
        } else {
          RolesFollowClassify(cfg, toks[1..], j - 1);
        }
    }
  }

  // ----- destinations -----

  /** Once true, the destination of a bool flag stays true for the rest of the parse. */
  lemma {:induction false} BoolStaysTrue(cfg: Config, toks: seq<string>, st: ParseState, k: string)
    requires Walk(cfg, toks, st).Some?
    requires Contains(cfg.reg, k) && Get(cfg.reg, k).value.kind == BoolKind
    requires k in st.dests && st.dests[k] == Bool(true)
    ensures k in Walk(cfg, toks, st).value.dests && Walk(cfg, toks, st).value.dests[k] == Bool(true)
    decreases |toks|
  {
    if toks != [] {
      match Classify(cfg, toks[0])
      case Stop =>
      case Plain =>
        BoolStaysTrue(cfg, toks[1..], st.(clean := st.clean + [toks[0]]), k);
      case FlagTok(key, data, inline) =>
        var raw := if data.kind == BoolKind || inline.Some? then (if inline.Some? then inline.value else "") else toks[1];
        var next := st.(dests := Write(cfg.conv, st.dests, key, data.kind, raw));
        assert k in next.dests && next.dests[k] == Bool(true);
        if data.kind == BoolKind || inline.Some? {
          BoolStaysTrue(cfg, toks[1..], next, k);
        } else {
          BoolStaysTrue(cfg, toks[2..], next, k);
        }
    }
  }

  /** A registered bool flag that the parse meets ends up true. */
  lemma {:induction false} BoolFlagSetsTrue(cfg: Config, toks: seq<string>, st: ParseState, j: nat)
    requires Walk(cfg, toks, st).Some?
    requires j < |toks| && Roles(cfg, toks)[j] == FlagName
    requires Classify(cfg, toks[j]).FlagTok? && Classify(cfg, toks[j]).data.kind == BoolKind
    ensures var k := Classify(cfg, toks[j]).key;
      k in Walk(cfg, toks, st).value.dests && Walk(cfg, toks, st).value.dests[k] == Bool(true)
    decreases |toks|
  {
    match Classify(cfg, toks[0])
    case Stop =>
    case Plain =>
      BoolFlagSetsTrue(cfg, toks[1..], st.(clean := st.clean + [toks[0]]), j - 1);
    case FlagTok(key, data, inline) =>
      var raw := if data.kind == BoolKind || inline.Some? then (if inline.Some? then inline.value else "") else toks[1];
      var next := st.(dests := Write(cfg.conv, st.dests, key, data.kind, raw));
      var two := data.kind != BoolKind && inline.None? && |toks| >= 2;
      if j == 0 {
        BoolStaysTrue(cfg, toks[1..], next, key);
      } else if two {
        BoolFlagSetsTrue(cfg, toks[2..], next, j - 2);
      } else {
        BoolFlagSetsTrue(cfg, toks[1..], next, j - 1);
      }
  }

  /** The token names flag `k` (bare or with '='). */
  predicate NamesFlag(cfg: Config, tok: string, k: string)
  {
    Classify(cfg, tok).FlagTok? && Classify(cfg, tok).key == k
  }

  /**
   * A flag that no examined token names keeps the value its destination
   * had before the parse.
   */
  lemma {:induction false} UnnamedFlagKeepsValue(cfg: Config, toks: seq<string>, st: ParseState, k: string)
    requires Walk(cfg, toks, st).Some?
    requires forall j | 0 <= j < |toks| && Roles(cfg, toks)[j] == FlagName :: !NamesFlag(cfg, toks[j], k)
    ensures var r := Walk(cfg, toks, st).value;
      (k in r.dests <==> k in st.dests) && (k in st.dests ==> r.dests[k] == st.dests[k])
    decreases |toks|
  {
    if toks != [] {
      var roles := Roles(cfg, toks);
      match Classify(cfg, toks[0])
      case Stop =>
      case Plain =>
        var tail := toks[1..];
        assert roles[1..] == Roles(cfg, tail);
        forall j | 0 <= j < |tail| && Roles(cfg, tail)[j] == FlagName ensures !NamesFlag(cfg, tail[j], k) {
          assert roles[j + 1] == FlagName && toks[j + 1] == tail[j];
        }
        UnnamedFlagKeepsValue(cfg, tail, st.(clean := st.clean + [toks[0]]), k);
      case FlagTok(key, data, inline) =>
        assert roles[0] == FlagName;
        assert key != k;
        var two := data.kind != BoolKind && inline.None? && |toks| >= 2;
        var raw := if two then toks[1] else if inline.Some? then inline.value else "";
        var next := st.(dests := Write(cfg.conv, st.dests, key, data.kind, raw));
        var skip := if two then 2 else 1;
        var tail := toks[skip..];
        assert roles[skip..] == Roles(cfg, tail);
        forall j | 0 <= j < |tail| && Roles(cfg, tail)[j] == FlagName ensures !NamesFlag(cfg, tail[j], k) {
          assert roles[j + skip] == FlagName && toks[j + skip] == tail[j];
        }
        UnnamedFlagKeepsValue(cfg, tail, next, k);
    }
  }

  // ----- an example run -----

  /** `-i` (number), `-s` (string) and `-x` (bool), in key order. */
  function ExampleRegistry(): Registry
  {
    [("-i", FlagData(IntKind, "i")), ("-s", FlagData(StringKind, "s")), ("-x", FlagData(BoolKind, "x"))]
  }

  /** Registering `-x`, `-i` and `-s` in that order builds the example registry. */
  lemma ExampleRegistryBuilt()
    ensures Put(Put(Put([], "-x", FlagData(BoolKind, "x")), "-i", FlagData(IntKind, "i")), "-s", FlagData(StringKind, "s"))
      == ExampleRegistry()
  {
    assert Less("-i", "-x") && Less("-i", "-s") && Less("-s", "-x");
  }

  lemma GetExample(k: string)
    ensures Get(ExampleRegistry(), k) ==
      if k == "-i" then Some(FlagData(IntKind, "i"))
      else if k == "-s" then Some(FlagData(StringKind, "s"))
      else if k == "-x" then Some(FlagData(BoolKind, "x"))
      else None
  {
    var reg := ExampleRegistry();
    assert reg[0].0 == "-i" && reg[1].0 == "-s" && reg[2].0 == "-x";
    assert reg[1..][0] == reg[1] && reg[1..][1..][0] == reg[2];
    assert reg[1..][1..][1..] == [];
    assert Get(reg[1..][1..], k) == if k == "-x" then Some(FlagData(BoolKind, "x")) else None;
    assert Get(reg[1..], k) == if k == "-s" then Some(FlagData(StringKind, "s")) else Get(reg[1..][1..], k);
  }

  function ExampleConfig(conv: Conversions): Config
  {
    Config(ExampleRegistry(), "-help", true, conv)
  }

  function ExampleStart(): ParseState
  {
    ParseState([], map["-x" := Bool(false), "-i" := Int(10), "-s" := Str("nope")], false)
  }

  /**
   * With `x = false`, `i = 10` and `s = "nope"` bound, the arguments
   * `prog -x -i 42 echo hi there` set x to true and i to 42, leave s alone,
   * and keep `echo hi there` as the clean arguments.
   */
  lemma ExampleParse(conv: Conversions)
    requires conv.stol("42") == Some(42)
    ensures Walk(ExampleConfig(conv), ["-x", "-i", "42", "echo", "hi", "there"], ExampleStart())
      == Some(ParseState(["echo", "hi", "there"],
                         map["-x" := Bool(true), "-i" := Int(42), "-s" := Str("nope")], false))
  {
    var cfg := ExampleConfig(conv);
    var st2 := ParseState([], map["-x" := Bool(true), "-i" := Int(42), "-s" := Str("nope")], false);
    var toks3 := ["echo", "hi", "there"];
    ExampleFlagSteps(conv);
    ExampleClassify(conv);
    WalkPlain3(cfg, "echo", "hi", "there", st2);
    assert st2.clean + toks3 == toks3;
  }

  /** The first three tokens set x and i. */
  lemma ExampleFlagSteps(conv: Conversions)
    requires conv.stol("42") == Some(42)
    ensures Walk(ExampleConfig(conv), ["-x", "-i", "42", "echo", "hi", "there"], ExampleStart())
      == Walk(ExampleConfig(conv), ["echo", "hi", "there"],
              ParseState([], map["-x" := Bool(true), "-i" := Int(42), "-s" := Str("nope")], false))
  {
    var st := ExampleStart();
    var st1 := st.(dests := st.dests["-x" := Bool(true)]);
    assert st1.(dests := st1.dests["-i" := Int(42)])
      == ParseState([], map["-x" := Bool(true), "-i" := Int(42), "-s" := Str("nope")], false) by {
      assert st1.dests["-i" := Int(42)] == map["-x" := Bool(true), "-i" := Int(42), "-s" := Str("nope")];
    }
    ExampleStepX(conv, st);
    ExampleStepI(conv, st1);
  }

  lemma ExampleStepX(conv: Conversions, st: ParseState)
    ensures Walk(ExampleConfig(conv), ["-x", "-i", "42", "echo", "hi", "there"], st)
      == Walk(ExampleConfig(conv), ["-i", "42", "echo", "hi", "there"], st.(dests := st.dests["-x" := Bool(true)]))
  {
    var toks := ["-x", "-i", "42", "echo", "hi", "there"];
    ExampleClassify(conv);
    assert toks[1..] == ["-i", "42", "echo", "hi", "there"];
    WalkFlag(ExampleConfig(conv), toks, st, "");
  }

  lemma ExampleStepI(conv: Conversions, st: ParseState)
    requires conv.stol("42") == Some(42)
    ensures Walk(ExampleConfig(conv), ["-i", "42", "echo", "hi", "there"], st)
      == Walk(ExampleConfig(conv), ["echo", "hi", "there"], st.(dests := st.dests["-i" := Int(42)]))
  {
    var toks := ["-i", "42", "echo", "hi", "there"];
    ExampleClassify(conv);
    assert toks[2..] == ["echo", "hi", "there"];
    assert Wrap32(42) == 42;
    assert Write(conv, st.dests, "-i", IntKind, "42") == st.dests["-i" := Int(42)];
    WalkFlag(ExampleConfig(conv), toks, st, "42");
  }

  lemma ExampleClassify(conv: Conversions)
    ensures Classify(ExampleConfig(conv), "-x") == FlagTok("-x", FlagData(BoolKind, "x"), None)
    ensures Classify(ExampleConfig(conv), "-i") == FlagTok("-i", FlagData(IntKind, "i"), None)
    ensures Classify(ExampleConfig(conv), "echo") == Plain
    ensures Classify(ExampleConfig(conv), "hi") == Plain
    ensures Classify(ExampleConfig(conv), "there") == Plain
  {
    GetExample("-x");
    GetExample("-i");
    GetExample("echo");
    GetExample("hi");
    GetExample("there");
  }

  lemma WalkPlain3(cfg: Config, a: string, b: string, c: string, st: ParseState)
    requires Classify(cfg, a) == Plain && Classify(cfg, b) == Plain && Classify(cfg, c) == Plain
    ensures Walk(cfg, [a, b, c], st) == Some(st.(clean := st.clean + [a, b, c]))
  {
    assert [a, b, c][1..] == [b, c] && [b, c][1..] == [c] && [c][1..] == [];
    var st1 := st.(clean := st.clean + [a]);
    var st2 := st1.(clean := st1.clean + [b]);
    var st3 := st2.(clean := st2.clean + [c]);
    WalkPlain(cfg, [a, b, c], st);
    WalkPlain(cfg, [b, c], st1);
    WalkPlain(cfg, [c], st2);
    assert Walk(cfg, [], st3) == Some(st3);
    assert st3.clean == st.clean + [a, b, c];
  }

  /** `-i=notanumber` splits into the key `-i` and the value `notanumber`. */
  lemma ExampleSplit()
    ensures SplitEqual(ExampleRegistry(), "-i=notanumber") == ("-i", "notanumber")
  {
    var reg := ExampleRegistry();
    var v := "notanumber";
    forall m | 0 <= m < 2 ensures !Contains(reg, "-i"[..m]) {
      GetExample("-i"[..m]);
      assert |"-i"[..m]| == m;
    }
    forall m | 0 <= m < |v| ensures !Contains(reg, v[..m]) {
      GetExample(v[..m]);
      if m >= 1 {
        assert v[..m][0] == 'n';
      }
    }
    GetExample("-i");
    SplitEqualFlagForm(reg, "-i", v);
    assert "-i" + "=" + v == "-i=notanumber";
  }

  /** `-i=notanumber` leaves `i` at 10. */
  lemma ExampleFailedConversion(conv: Conversions)
    requires conv.stol("notanumber") == None
    ensures Walk(ExampleConfig(conv), ["-i=notanumber"], ExampleStart()) == Some(ExampleStart())
  {
    var cfg, tok := ExampleConfig(conv), "-i=notanumber";
    ExampleClassifyInline(conv);
    WalkFlag(cfg, [tok], ExampleStart(), "notanumber");
    assert [tok][1..] == [];
  }

  lemma ExampleClassifyInline(conv: Conversions)
    ensures Classify(ExampleConfig(conv), "-i=notanumber") == FlagTok("-i", FlagData(IntKind, "i"), Some("notanumber"))
  {
    ExampleSplit();
    GetExample("-i");
    assert HasEqual("-i=notanumber") by {
      assert "-i=notanumber"[2] == '=';
    }
  }
}
