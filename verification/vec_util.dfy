/**
 * The vector helpers: in-place reversal, splitting a string on a separator,
 * joining strings with a symbol, the bracketed display of a vector, and
 * membership. Each loop is a method proved against a function that says
 * what it computes; the properties of those functions are in
 * `VecUtilProperties`.
 */
module VecUtil {
  import opened Strings

  // ----- reverse -----

  /** The elements of `s` in the opposite order: the same elements, as often as they occur. */
  function Reversed<T>(s: seq<T>): (r: seq<T>)
    ensures |r| == |s|
    ensures multiset(r) == multiset(s)
  {
    if s == [] then []
    else
      assert s == [s[0]] + s[1..];
      Reversed(s[1..]) + [s[0]]
  }

  /** Element `k` of the reversal is element `|s| - 1 - k` of the original. */
  lemma {:induction false} ReversedAt<T>(s: seq<T>)
    ensures forall k | 0 <= k < |s| :: Reversed(s)[k] == s[|s| - 1 - k]
  {
    if s != [] {
      ReversedAt(s[1..]);
      assert forall k | 0 <= k < |s| - 1 :: Reversed(s)[k] == Reversed(s[1..])[k];
    }
  }

  /** `reverse`: swap from both ends towards the middle. */
  method Reverse<T>(arr: array<T>)
    modifies arr
    ensures arr[..] == Reversed(old(arr[..]))
  {
    ghost var orig := arr[..];
    var n := arr.Length;
    var fromStart := 0;
    var fromEnd := n - 1;
    while fromStart < fromEnd
      invariant 0 <= fromStart && fromEnd == n - 1 - fromStart
      invariant fromStart <= fromEnd + 2
      invariant forall k | 0 <= k < fromStart :: arr[k] == orig[n - 1 - k] && arr[n - 1 - k] == orig[k]
      invariant forall k | fromStart <= k <= fromEnd :: arr[k] == orig[k]
    {
      var temp := arr[fromStart];
      arr[fromStart] := arr[fromEnd];
      arr[fromEnd] := temp;
      fromStart := fromStart + 1;
      fromEnd := fromEnd - 1;
    }
    ReversedAt(orig);
    assert forall k | 0 <= k < n :: arr[k] == orig[n - 1 - k] by {
      forall k | 0 <= k < n ensures arr[k] == orig[n - 1 - k] {
        if n - 1 - k < fromStart {
          assert arr[n - 1 - (n - 1 - k)] == orig[n - 1 - k];
        }
      }
    }
  }

  // ----- split -----

  /**
   * The pieces of `s` cut at `sep`, the current piece having collected
   * `store`: a separator ends the current piece; the last character ends
   * it too, unless it is a separator.
   */
  function SplitFrom(s: string, sep: char, store: string): (pieces: seq<string>)
    requires sep !in store
    ensures forall p | p in pieces :: sep !in p
    decreases |s|
  {
    if s == [] then []
    else if s[0] == sep then [store] + SplitFrom(s[1..], sep, "")
    else if |s| == 1 then [store + [s[0]]]
    else SplitFrom(s[1..], sep, store + [s[0]])
  }

  /** What `split(str, sep)` returns: pieces free of the separator. */
  function Pieces(s: string, sep: char): (pieces: seq<string>)
    ensures forall p | p in pieces :: sep !in p
  {
    SplitFrom(s, sep, "")
  }

  /** `split`: one pass over the characters, collecting the current piece in `store`. */
  method Split(str: string, separator: char) returns (result: seq<string>)
    ensures result == Pieces(str, separator)
  {
    result := [];
    var store := "";
    var i := 0;
    while i < |str|
      invariant 0 <= i <= |str| && separator !in store
      invariant result + SplitFrom(str[i..], separator, store) == Pieces(str, separator)
    {
      var c := str[i];
      assert str[i..][0] == c && str[i..][1..] == str[i + 1..];
      i := i + 1;
      if c == separator {
        assert result + ([store] + SplitFrom(str[i..], separator, "")) == (result + [store]) + SplitFrom(str[i..], separator, "");
        result := result + [store];
        store := "";
        continue;
      }
      store := store + [c];
      if i == |str| {
        result := result + [store];
      }
    }
  }

  // ----- join -----

  /**
   * The strings of `v` with `symbol` between each two neighbours; with the
   * empty symbol, the strings written one after the other.
   */
  function Joined(v: seq<string>, symbol: string): (r: string)
    ensures symbol == "" ==> r == Concat(v)
  {
    if v == [] then ""
    else if |v| == 1 then v[0]
    else v[0] + symbol + Joined(v[1..], symbol)
  }

  /** Appending an element to a nonempty vector appends the symbol and the element. */
  lemma {:induction false} JoinedSnoc(v: seq<string>, x: string, symbol: string)
    requires v != []
    ensures Joined(v + [x], symbol) == Joined(v, symbol) + symbol + x
    decreases |v|
  {
    if |v| == 1 {
      assert (v + [x])[1..] == [x];
    } else {
      JoinedSnoc(v[1..], x, symbol);
      assert (v + [x])[1..] == v[1..] + [x];
    }
  }

  /** `join`: each element, followed by `symbol` unless it is the last. */
  method Join(vec: seq<string>, symbol: string) returns (r: string)
    ensures r == Joined(vec, symbol)
  {
    r := "";
    var i := 0;
    var size := |vec|;
    for k := 0 to |vec|
      invariant i == k
      invariant r == if k == 0 then "" else Joined(vec[..k], symbol) + (if k != size then symbol else "")
    {
      if k > 0 {
        JoinedSnoc(vec[..k], vec[k], symbol);
      } else {
        assert vec[..1] == [vec[0]];
      }
      assert vec[..k + 1] == vec[..k] + [vec[k]];
      i := i + 1;
      r := r + vec[k];
      if i != size {
        r := r + symbol;
      }
    }
    assert vec[..|vec|] == vec;
  }

  // ----- format -----

  /** The text `format` writes for element `i`. */
  function Piece(v: seq<string>, i: nat): string
    requires i < |v|
  {
    if i == 0 then "[ " + v[i] + ", "
    else if i == |v| - 1 then v[i] + " ]"
    else v[i] + ", "
  }

  function FormatPieces(v: seq<string>): (pieces: seq<string>)
    ensures |pieces| == |v|
    ensures forall i | 0 <= i < |v| :: pieces[i] == Piece(v, i)
  {
    seq(|v|, i requires 0 <= i < |v| => Piece(v, i))
  }

  /** What `format(vec)` returns: "[]" exactly for no elements, otherwise a text opening with "[ ". */
  function Formatted(v: seq<string>): (r: string)
    ensures r == "[]" <==> v == []
    ensures v != [] ==> |r| >= 2 && r[..2] == "[ "
  {
    if v == [] then "[]"
    else
      var pieces := FormatPieces(v);
      assert Concat(pieces) == pieces[0] + Concat(pieces[1..]);
      assert pieces[0] == "[ " + v[0] + ", ";
      Concat(pieces)
  }

  /** `format`: "[]" for an empty vector, else the piece of each element in turn. */
  method Format(vec: seq<string>) returns (result: string)
    ensures result == Formatted(vec)
  {
    if |vec| == 0 {
      return "[]";
    }
    ghost var pieces := FormatPieces(vec);
    result := "";
    var length := |vec| - 1;
    var i := 0;
    while i <= length
      invariant 0 <= i <= length + 1
      invariant result == Concat(pieces[..i])
    {
      var element := vec[i];
      ConcatSnoc(pieces, i);
      if i == 0 {
        result := result + ("[ " + element + ", ");
      } else if i == length {
        result := result + (element + " ]");
      } else {
        result := result + (element + ", ");
      }
      i := i + 1;
    }
    assert pieces[..i] == pieces;
  }

  // ----- includes -----

  /** `includes`: whether `value` occurs in `vec`. */
  method Includes<T(==)>(vec: seq<T>, value: T) returns (found: bool)
    ensures found <==> value in vec
  {
    for i := 0 to |vec|
      invariant value !in vec[..i]
    {
      if vec[i] == value {
        return true;
      }
      assert vec[..i + 1] == vec[..i] + [vec[i]];
    }
    assert vec[..|vec|] == vec;
    return false;
  }
}
