/**
 * Strings as sequences of characters: the ordering `std::string` uses as a
 * map key, and the concatenation of a list of lines.
 */
module Strings {

  /**
   * `a < b` for `std::string`: lexicographic by character code, a proper
   * prefix coming first.
   */
  predicate Less(a: string, b: string)
  {
    if |a| == 0 then |b| > 0
    else if |b| == 0 then false
    else if a[0] != b[0] then a[0] < b[0]
    else Less(a[1..], b[1..])
  }

  lemma {:induction false} LessIrreflexive(a: string)
    ensures !Less(a, a)
  {
    if |a| > 0 {
      LessIrreflexive(a[1..]);
    }
  }

  lemma {:induction false} LessAsymmetric(a: string, b: string)
    requires Less(a, b)
    ensures !Less(b, a)
  {
    if |a| > 0 && |b| > 0 && a[0] == b[0] {
      LessAsymmetric(a[1..], b[1..]);
    }
  }

  lemma {:induction false} LessTransitive(a: string, b: string, c: string)
    requires Less(a, b) && Less(b, c)
    ensures Less(a, c)
  {
    if |a| > 0 && |b| > 0 && |c| > 0 && a[0] == b[0] && b[0] == c[0] {
      LessTransitive(a[1..], b[1..], c[1..]);
    }
  }

  /** Any two different strings are ordered one way or the other. */
  lemma {:induction false} LessTotal(a: string, b: string)
    requires a != b
    ensures Less(a, b) || Less(b, a)
  {
    if |a| > 0 && |b| > 0 && a[0] == b[0] {
      assert a == [a[0]] + a[1..] && b == [b[0]] + b[1..];
      LessTotal(a[1..], b[1..]);
    }
  }

  /**
   * Re-bracketing a concatenation of five strings. The solver finds this
   * instance cheaply on its own, but not inside proofs about literals.
   */
  lemma Regroup(a: string, b: string, c: string, d: string, e: string)
    ensures (a + b + c) + (d + e) == a + (b + c + d) + e
  {
  }

  /** The lines of a text written one after the other. */
  function Concat(lines: seq<string>): string
  {
    if lines == [] then "" else lines[0] + Concat(lines[1..])
  }

  /** Where line `i` starts in `Concat(lines)`. */
  function Offset(lines: seq<string>, i: nat): nat
    requires i <= |lines|
  {
    if i == 0 then 0 else Offset(lines, i - 1) + |lines[i - 1]|
  }

  lemma {:induction false} OffsetMonotone(lines: seq<string>, i: nat, j: nat)
    requires i <= j <= |lines|
    ensures Offset(lines, i) <= Offset(lines, j)
    decreases j
  {
    if i < j {
      OffsetMonotone(lines, i, j - 1);
    }
  }

  /** Line `i` sits verbatim at `Offset(lines, i)` of the concatenation. */
  lemma {:induction false} ConcatAt(lines: seq<string>, i: nat)
    requires i < |lines|
    ensures Offset(lines, i) + |lines[i]| <= |Concat(lines)|
    ensures Concat(lines)[Offset(lines, i)..Offset(lines, i) + |lines[i]|] == lines[i]
  {
    if i == 0 {
      assert Concat(lines) == lines[0] + Concat(lines[1..]);
    } else {
      ConcatAt(lines[1..], i - 1);
      OffsetShift(lines, i);
      assert Concat(lines) == lines[0] + Concat(lines[1..]);
    }
  }

  lemma {:induction false} OffsetShift(lines: seq<string>, i: nat)
    requires 0 < i <= |lines|
    ensures Offset(lines, i) == |lines[0]| + Offset(lines[1..], i - 1)
  {
    if i > 1 {
      OffsetShift(lines, i - 1);
    }
  }

  /** Appending one line to the lines appends it to the text. */
  lemma {:induction false} ConcatSnoc(lines: seq<string>, i: nat)
    requires i < |lines|
    ensures Concat(lines[..i + 1]) == Concat(lines[..i]) + lines[i]
    decreases i
  {
    if i > 0 {
      ConcatSnoc(lines[1..], i - 1);
      assert lines[..i + 1][1..] == lines[1..][..i];
      assert lines[..i][1..] == lines[1..][..i - 1];
      assert lines[1..][i - 1] == lines[i];
    } else {
      assert lines[..1][1..] == [];
    }
  }

  /** Every line sits verbatim in `text` at its offset. */
  ghost predicate InPlace(lines: seq<string>, text: string)
  {
    forall i | 0 <= i < |lines| ::
      Offset(lines, i) + |lines[i]| <= |text| &&
      text[Offset(lines, i)..Offset(lines, i) + |lines[i]|] == lines[i]
  }

  /** Each line of a text is in place, and nonempty lines start in order. */
  lemma LinesInOrder(lines: seq<string>)
    requires forall i | 0 <= i < |lines| :: |lines[i]| > 0
    ensures InPlace(lines, Concat(lines))
    ensures forall i, j | 0 <= i < j < |lines| :: Offset(lines, i) < Offset(lines, j)
  {
    forall i | 0 <= i < |lines|
      ensures Offset(lines, i) + |lines[i]| <= |Concat(lines)|
      ensures Concat(lines)[Offset(lines, i)..Offset(lines, i) + |lines[i]|] == lines[i]
    {
      ConcatAt(lines, i);
    }
    forall i, j | 0 <= i < j < |lines| ensures Offset(lines, i) < Offset(lines, j) {
      OffsetMonotone(lines, i + 1, j);
    }
  }
}
