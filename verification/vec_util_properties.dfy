/** Properties of reversal, split, join and format. */
module VecUtilProperties {
  import opened Strings
  import opened VecUtil

  // ----- reverse -----

  /** Reversing twice gives the original back. */
  lemma ReversedTwice<T>(s: seq<T>)
    ensures Reversed(Reversed(s)) == s
  {
    ReversedAt(s);
    ReversedAt(Reversed(s));
  }

  // ----- split -----

  /** Some piece is produced exactly when there is input. */
  lemma {:induction false} SplitFromEmpty(s: string, sep: char, store: string)
    requires sep !in store
    ensures SplitFrom(s, sep, store) == [] <==> s == []
    decreases |s|
  {
    if s != [] && s[0] != sep && |s| > 1 {
      SplitFromEmpty(s[1..], sep, store + [s[0]]);
    }
  }

  /**
   * One piece per separator, and one more when the input ends in
   * something other than a separator.
   */
  lemma {:induction false} SplitFromCount(s: string, sep: char, store: string)
    requires sep !in store
    ensures |SplitFrom(s, sep, store)| == multiset(s)[sep] + (if s != [] && s[|s| - 1] != sep then 1 else 0)
    decreases |s|
  {
    if s != [] {
      assert s == [s[0]] + s[1..];
      if s[0] == sep {
        SplitFromCount(s[1..], sep, "");
      } else if |s| > 1 {
        SplitFromCount(s[1..], sep, store + [s[0]]);
      }
    }
  }

  /** `split` of "" is empty, and no piece holds the separator. */
  lemma SplitShape(s: string, sep: char)
    ensures Pieces(s, sep) == [] <==> s == []
    ensures forall p | p in Pieces(s, sep) :: sep !in p
    ensures |Pieces(s, sep)| == multiset(s)[sep] + (if s != [] && s[|s| - 1] != sep then 1 else 0)
  {
    SplitFromEmpty(s, sep, "");
    SplitFromCount(s, sep, "");
  }

  lemma {:induction false} JoinSplitFrom(s: string, sep: char, store: string)
    requires sep !in store && s != [] && s[|s| - 1] != sep
    ensures Joined(SplitFrom(s, sep, store), [sep]) == store + s
    decreases |s|
  {
    if s[0] == sep {
      var rest := SplitFrom(s[1..], sep, "");
      JoinSplitFrom(s[1..], sep, "");
      SplitFromEmpty(s[1..], sep, "");
      assert ([store] + rest)[1..] == rest;
      assert store + [sep] + ("" + s[1..]) == store + s;
    } else if |s| > 1 {
      JoinSplitFrom(s[1..], sep, store + [s[0]]);
      assert store + [s[0]] + s[1..] == store + s;
    } else {
      assert [s[0]] == s;
    }
  }

  /** Joining the pieces with the separator rebuilds a string that does not end in it. */
  lemma SplitJoin(s: string, sep: char)
    requires s != [] && s[|s| - 1] != sep
    ensures Joined(Pieces(s, sep), [sep]) == s
  {
    JoinSplitFrom(s, sep, "");
    assert "" + s == s;
  }

  /** Neighbouring separators give an empty piece; a trailing one gives none; a leading one gives an empty first piece. */
  lemma SplitExamples()
    ensures Pieces("a,,b", ',') == ["a", "", "b"]
    ensures Pieces("a,", ',') == ["a"]
    ensures Pieces(",a", ',') == ["", "a"]
  {
    assert "a,,b"[1..] == ",,b" && ",,b"[1..] == ",b" && ",b"[1..] == "b";
    assert "" + ['b'] == "b";
    assert SplitFrom("b", ',', "") == ["b"];
    assert SplitFrom(",b", ',', "") == [""] + ["b"];
    assert SplitFrom(",,b", ',', "a") == ["a"] + ["", "b"];
    assert "" + ['a'] == "a";
    assert "a,"[1..] == ",";
    assert SplitFrom(",", ',', "a") == ["a"];
    assert ",a"[1..] == "a";
    assert SplitFrom("a", ',', "") == ["a"];
  }

  // ----- join -----

  /** Joining two nonempty vectors joins the two results with one symbol. */
  lemma {:induction false} JoinedAppend(a: seq<string>, b: seq<string>, symbol: string)
    requires a != [] && b != []
    ensures Joined(a + b, symbol) == Joined(a, symbol) + symbol + Joined(b, symbol)
    decreases |a|
  {
    if |a| == 1 {
      assert (a + b)[1..] == b;
    } else {
      JoinedAppend(a[1..], b, symbol);
      assert (a + b)[1..] == a[1..] + b;
    }
  }

  /** The result starts with the first element and ends with the last: no symbol before or after. */
  lemma {:induction false} JoinedEnds(v: seq<string>, symbol: string)
    requires v != []
    ensures |v[0]| <= |Joined(v, symbol)| && Joined(v, symbol)[..|v[0]|] == v[0]
    ensures |v[|v| - 1]| <= |Joined(v, symbol)| &&
      Joined(v, symbol)[|Joined(v, symbol)| - |v[|v| - 1]|..] == v[|v| - 1]
    decreases |v|
  {
    if |v| > 1 {
      JoinedEnds(v[1..], symbol);
      var j := Joined(v, symbol);
      var tail := Joined(v[1..], symbol);
      var last := v[|v| - 1];
      assert v[1..][|v[1..]| - 1] == last;
      assert j == v[0] + (symbol + tail);
      assert j[..|v[0]|] == v[0];
      assert j[|j| - |last|..] == tail[|tail| - |last|..] by {
        assert j[|j| - |tail|..] == tail;
      }
    }
  }

  // ----- format -----

  lemma {:induction false} FormatTail(v: seq<string>, i: nat)
    requires 1 <= i < |v|
    ensures Concat(FormatPieces(v)[i..]) == Joined(v[i..], ", ") + " ]"
    decreases |v| - i
  {
    var pieces := FormatPieces(v);
    assert pieces[i..][0] == Piece(v, i);
    if i == |v| - 1 {
      assert pieces[i..][1..] == [];
      assert v[i..] == [v[i]];
    } else {
      FormatTail(v, i + 1);
      assert pieces[i..][1..] == pieces[i + 1..];
      assert v[i..][1..] == v[i + 1..];
      assert v[i..][0] == v[i];
    }
  }

  /** Two or more elements: "[ ", the elements joined with ", ", then " ]". */
  lemma FormattedMany(v: seq<string>)
    requires |v| >= 2
    ensures Formatted(v) == "[ " + Joined(v, ", ") + " ]"
  {
    var pieces := FormatPieces(v);
    FormatTail(v, 1);
    var tail := Joined(v[1..], ", ");
    assert pieces[0] == "[ " + v[0] + ", ";
    assert Concat(pieces[1..]) == tail + " ]";
    assert Concat(pieces) == pieces[0] + Concat(pieces[1..]);
    assert Joined(v, ", ") == v[0] + ", " + tail;
    Regroup("[ ", v[0], ", ", tail, " ]");
  }

  /** One element: "[ ", the element and ", ", with no closing bracket. */
  lemma FormattedOne(e: string)
    ensures Formatted([e]) == "[ " + e + ", "
  {
    var pieces := FormatPieces([e]);
    assert pieces == ["[ " + e + ", "];
    assert pieces[1..] == [];
    assert Concat(pieces) == pieces[0] + Concat([]);
  }
}
