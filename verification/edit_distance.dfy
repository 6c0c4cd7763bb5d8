/**
 The edit distance behind the near-match suggestions of the CSV import
 (`levenshtein` in `reconcile.ts`): a single row that is overwritten while the
 corner above it is saved.  `Dist` is the textbook distance.
 */
module EditDistance {

  function Min(a: nat, b: nat): nat {
    if a < b then a else b
  }

  function Min3(a: nat, b: nat, c: nat): nat {
    Min(a, Min(b, c))
  }

  /** Fewest single-character insertions, deletions and substitutions that turn `a` into `b`. */
  function Dist(a: string, b: string): nat
    decreases |a| + |b|
  {
    if a == "" then |b|
    else if b == "" then |a|
    else
      var a', b' := a[..|a| - 1], b[..|b| - 1];
      Min3(Dist(a', b) + 1, Dist(a, b') + 1, Dist(a', b') + if a[|a| - 1] == b[|b| - 1] then 0 else 1)
  }

  /** Distance between the first `i` characters of one word and the first `j` of the other. */
  function Cell(a: string, b: string, i: nat, j: nat): nat
    requires i <= |a| && j <= |b|
  {
    Dist(a[..i], b[..j])
  }

  lemma CellStep(a: string, b: string, i: nat, j: nat)
    requires i < |a| && j < |b|
    ensures Cell(a, b, i + 1, j + 1) ==
            Min3(Cell(a, b, i + 1, j) + 1, Cell(a, b, i, j + 1) + 1, Cell(a, b, i, j) + if a[i] == b[j] then 0 else 1)
    ensures Cell(a, b, i + 1, 0) == i + 1 && Cell(a, b, 0, j + 1) == j + 1
  {
    assert a[..i + 1][..i] == a[..i];
    assert b[..j + 1][..j] == b[..j];
  }

  /** The row holds the distances from the first `i` characters. */
  ghost predicate IsRow(row: seq<nat>, a: string, b: string, i: nat) {
    && i <= |a| && |row| == |b| + 1
    && forall k: nat :: k < |row| ==> row[k] == Cell(a, b, i, k)
  }

  /** The row while it is overwritten: new up to `j`, old after it. */
  ghost predicate IsMixed(row: seq<nat>, a: string, b: string, i: nat, j: nat) {
    && i < |a| && j < |row| == |b| + 1
    && (forall k: nat :: k <= j ==> row[k] == Cell(a, b, i + 1, k))
    && forall k: nat :: j < k < |row| ==> row[k] == Cell(a, b, i, k)
  }

  lemma FirstRow(row: seq<nat>, a: string, b: string)
    requires |row| == |b| + 1 && forall k: nat :: k < |row| ==> row[k] == k
    ensures IsRow(row, a, b, 0)
  {
  }

  lemma RowIsDone(row: seq<nat>, a: string, b: string, i: nat)
    requires IsMixed(row, a, b, i, |b|)
    ensures IsRow(row, a, b, i + 1)
  {
  }

  lemma LastRow(row: seq<nat>, a: string, b: string)
    requires IsRow(row, a, b, |a|)
    ensures |row| == |b| + 1 && row[|b|] == Dist(a, b)
  {
    assert a[..|a|] == a && b[..|b|] == b;
  }

  lemma NextRow(row: seq<nat>, a: string, b: string, i: nat)
    requires i < |a| && IsRow(row, a, b, i)
    ensures IsMixed(row[0 := i + 1], a, b, i, 0) && Cell(a, b, i, 0) == i
  {
    assert Cell(a, b, i + 1, 0) == i + 1;
    hide Cell;
  }

  lemma MixedStep(row: seq<nat>, a: string, b: string, i: nat, j: nat, corner: nat)
    requires IsMixed(row, a, b, i, j) && j < |b| && corner == Cell(a, b, i, j)
    ensures var cell := Min3(row[j] + 1, row[j + 1] + 1, corner + if a[i] == b[j] then 0 else 1);
            IsMixed(row[j + 1 := cell], a, b, i, j + 1) && row[j + 1] == Cell(a, b, i, j + 1)
  {
    CellStep(a, b, i, j);
    hide Cell, Min3;
  }

  /** One round of the outer loop: the row is overwritten from left to right. */
  method OverwriteRow(previous: array<nat>, left: string, right: string, i: nat)
    requires i < |left| && IsRow(previous[..], left, right, i)
    modifies previous
    ensures IsRow(previous[..], left, right, i + 1)
  {
    assert previous.Length == |right| + 1;
    hide Dist, Cell, Min3, IsMixed, IsRow;
    var corner := i;
    ghost var above := previous[..];
    NextRow(above, left, right, i);
    previous[0] := i + 1;
    assert previous[..] == above[0 := previous[0]];
    var j: nat := 0;
    while j < |right|
      invariant j <= |right| && corner == Cell(left, right, i, j)
      invariant IsMixed(previous[..], left, right, i, j)
    {
      ghost var row := previous[..];
      var nextCorner := previous[j + 1];
      var substitution := if left[i] == right[j] then 0 else 1;
      previous[j + 1] := Min3(previous[j] + 1, previous[j + 1] + 1, corner + substitution);
      assert previous[..] == row[j + 1 := previous[j + 1]];
      MixedStep(row, left, right, i, j, corner);
      corner := nextCorner;
      j := j + 1;
    }
    RowIsDone(previous[..], left, right, i);
  }

  method Levenshtein(left: string, right: string) returns (distance: nat)
    ensures distance == Dist(left, right)
  {
    SameIsZero(left, right);
    if left == right {
      return 0;
    }
    if |left| == 0 {
      return |right|;
    }
    if |right| == 0 {
      return |left|;
    }
    hide Dist, Cell, IsRow;
    var previous := new nat[|right| + 1](index => index);
    FirstRow(previous[..], left, right);
    var i: nat := 0;
    while i < |left|
      invariant i <= |left|
      invariant IsRow(previous[..], left, right, i)
    {
      OverwriteRow(previous, left, right, i);
      i := i + 1;
    }
    LastRow(previous[..], left, right);
    distance := previous[|right|];
  }

  /** Distance is zero exactly between equal words. */
  lemma {:induction false} SameIsZero(a: string, b: string)
    ensures Dist(a, b) == 0 <==> a == b
    decreases |a| + |b|
  {
    if a != "" && b != "" {
      var a', b' := a[..|a| - 1], b[..|b| - 1];
      SameIsZero(a', b');
      assert a == a' + [a[|a| - 1]] && b == b' + [b[|b| - 1]];
    }
  }

  lemma {:induction false} Symmetric(a: string, b: string)
    ensures Dist(a, b) == Dist(b, a)
    decreases |a| + |b|
  {
    if a != "" && b != "" {
      var a', b' := a[..|a| - 1], b[..|b| - 1];
      Symmetric(a', b);
      Symmetric(a, b');
      Symmetric(a', b');
    }
  }

  /** No shorter than the difference of the lengths, no longer than the longer word. */
  lemma {:induction false} LengthBounds(a: string, b: string)
    ensures |a| - |b| <= Dist(a, b) && |b| - |a| <= Dist(a, b)
    ensures Dist(a, b) <= |a| || Dist(a, b) <= |b|
    decreases |a| + |b|
  {
    if a != "" && b != "" {
      var a', b' := a[..|a| - 1], b[..|b| - 1];
      LengthBounds(a', b);
      LengthBounds(a, b');
      LengthBounds(a', b');
    }
  }

  lemma {:induction false} Triangle(a: string, b: string, c: string)
    ensures Dist(a, c) <= Dist(a, b) + Dist(b, c)
    decreases |a| + |b| + |c|
  {
    if a == "" {
      LengthBounds(b, c);
    } else if c == "" {
      LengthBounds(a, b);
    } else if b == "" {
      LengthBounds(a, c);
    } else {
      var a', b', c' := a[..|a| - 1], b[..|b| - 1], c[..|c| - 1];
      Triangle(a', b, c);
      Triangle(a, b, c');
      Triangle(a, b', c);
      Triangle(a, b', c');
      Triangle(a', b', c);
      Triangle(a', b', c');
    }
  }

  // ---------------------------------------------------------------- edit scripts

  /** `b` is `a` with one character inserted, deleted or replaced (or left alone). */
  ghost predicate OneEdit(a: string, b: string) {
    exists before: string, u: string, v: string, after: string ::
      |u| <= 1 && |v| <= 1 && a == before + u + after && b == before + v + after
  }

  /** A chain of words, each one edit from the last. */
  ghost predicate Script(words: seq<string>, a: string, b: string) {
    && words != [] && words[0] == a && words[|words| - 1] == b
    && forall i :: 0 <= i < |words| - 1 ==> OneEdit(words[i], words[i + 1])
  }

  lemma {:induction false} SharedEnd(a: string, b: string, after: string)
    ensures Dist(a + after, b + after) <= Dist(a, b)
  {
    if after == "" {
      assert a + after == a && b + after == b;
    } else {
      var k := |after| - 1;
      SharedEnd(a, b, after[..k]);
      assert (a + after)[..|a + after| - 1] == a + after[..k];
      assert (b + after)[..|b + after| - 1] == b + after[..k];
    }
  }

  lemma LastEditCostsOne(word: string, u: string, v: string)
    requires |u| <= 1 && |v| <= 1
    ensures Dist(word + u, word + v) <= 1
  {
    SameIsZero(word, word);
    if |u| == 0 {
      assert word + u == word;
    } else {
      assert (word + u)[..|word|] == word;
    }
    if |v| == 0 {
      assert word + v == word;
    } else {
      assert (word + v)[..|word|] == word;
    }
  }

  lemma OneEditCostsOne(a: string, b: string)
    requires OneEdit(a, b)
    ensures Dist(a, b) <= 1
  {
    var before, u, v, after :|
      |u| <= 1 && |v| <= 1 && a == before + u + after && b == before + v + after;
    SharedEnd(before + u, before + v, after);
    LastEditCostsOne(before, u, v);
  }

  /** No script is shorter than the distance. */
  lemma {:induction false} NoScriptIsShorter(words: seq<string>, a: string, b: string)
    requires Script(words, a, b)
    ensures Dist(a, b) <= |words| - 1
    decreases |words|
  {
    if |words| == 1 {
      SameIsZero(a, b);
    } else {
      var k := |words| - 2;
      NoScriptIsShorter(words[..k + 1], a, words[k]);
      OneEditCostsOne(words[k], b);
      Triangle(a, words[k], b);
    }
  }

  function Extended(words: seq<string>, c: char): seq<string> {
    seq(|words|, i requires 0 <= i < |words| => words[i] + [c])
  }

  lemma ExtendedEdit(a: string, b: string, c: char)
    requires OneEdit(a, b)
    ensures OneEdit(a + [c], b + [c])
  {
    var before, u, v, after :| |u| <= 1 && |v| <= 1 && a == before + u + after && b == before + v + after;
    assert a + [c] == before + u + (after + [c]) && b + [c] == before + v + (after + [c]);
  }

  lemma ExtendedScript(words: seq<string>, a: string, b: string, c: char)
    requires Script(words, a, b)
    ensures Script(Extended(words, c), a + [c], b + [c])
  {
    hide OneEdit;
    var longer := Extended(words, c);
    forall i | 0 <= i < |longer| - 1
      ensures OneEdit(longer[i], longer[i + 1])
    {
      ExtendedEdit(words[i], words[i + 1], c);
    }
  }

  lemma AppendToScript(words: seq<string>, a: string, b: string, c: string)
    requires Script(words, a, b) && OneEdit(b, c)
    ensures Script(words + [c], a, c)
  {
  }

  lemma PrependToScript(words: seq<string>, a: string, b: string, z: string)
    requires Script(words, a, b) && OneEdit(z, a)
    ensures Script([z] + words, z, b)
  {
    var longer := [z] + words;
    forall i | 0 <= i < |longer| - 1
      ensures OneEdit(longer[i], longer[i + 1])
    {
      assert i > 0 ==> longer[i] == words[i - 1] && longer[i + 1] == words[i];
    }
  }

  lemma LastEdit(word: string, u: string, v: string)
    requires |u| <= 1 && |v| <= 1
    ensures OneEdit(word + u, word + v)
  {
    assert word + u == word + u + "" && word + v == word + v + "";
  }

  lemma DropLast(word: string)
    requires word != ""
    ensures OneEdit(word[..|word| - 1], word) && OneEdit(word, word[..|word| - 1])
  {
    var init, last := word[..|word| - 1], [word[|word| - 1]];
    assert init + last == word && init + "" == init;
    LastEdit(init, "", last);
    LastEdit(init, last, "");
  }

  lemma SubstituteLast(inner: seq<string>, a: string, b: string, x: char, y: char) returns (words: seq<string>)
    requires Script(inner, a, b)
    ensures Script(words, a + [x], b + [y]) && |words| == |inner| + if x == y then 0 else 1
  {
    hide Script, OneEdit;
    ExtendedScript(inner, a, b, x);
    words := Extended(inner, x);
    if x != y {
      LastEdit(b, [x], [y]);
      AppendToScript(words, a + [x], b + [x], b + [y]);
      words := words + [b + [y]];
    }
  }

  /** The last characters are handled by an insertion, a deletion or a substitution. */
  lemma DistStep(a: string, b: string)
    requires a != "" || b != ""
    ensures (b != "" && Dist(a, b) == Dist(a, b[..|b| - 1]) + 1) ||
            (a != "" && Dist(a, b) == Dist(a[..|a| - 1], b) + 1) ||
            (a != "" && b != "" &&
             Dist(a, b) == Dist(a[..|a| - 1], b[..|b| - 1]) + if a[|a| - 1] == b[|b| - 1] then 0 else 1)
  {
  }

  /** Some script is as long as the distance. */
  lemma {:induction false} SomeScript(a: string, b: string) returns (words: seq<string>)
    ensures Script(words, a, b) && |words| - 1 == Dist(a, b)
    decreases |a| + |b|
  {
    if a == "" && b == "" {
      words := [a];
      return;
    }
    hide Script, OneEdit, Dist;
    DistStep(a, b);
    if b != "" && Dist(a, b) == Dist(a, b[..|b| - 1]) + 1 {
      var b' := b[..|b| - 1];
      words := SomeScript(a, b');
      DropLast(b);
      AppendToScript(words, a, b', b);
      words := words + [b];
    } else if a != "" && Dist(a, b) == Dist(a[..|a| - 1], b) + 1 {
      var a' := a[..|a| - 1];
      words := SomeScript(a', b);
      DropLast(a);
      PrependToScript(words, a', b, a);
      words := [a] + words;
    } else {
      var a', b' := a[..|a| - 1], b[..|b| - 1];
      var x, y := a[|a| - 1], b[|b| - 1];
      var inner := SomeScript(a', b');
      assert a' + [x] == a && b' + [y] == b;
      words := SubstituteLast(inner, a', b', x, y);
    }
  }

  /** Main result: the distance is the length of a shortest edit script. */
  lemma DistIsShortestScript(a: string, b: string)
    ensures exists words :: Script(words, a, b) && |words| - 1 == Dist(a, b)
    ensures forall words :: Script(words, a, b) ==> Dist(a, b) <= |words| - 1
  {
    var shortest := SomeScript(a, b);
    forall words | Script(words, a, b)
      ensures Dist(a, b) <= |words| - 1
    {
      NoScriptIsShorter(words, a, b);
    }
  }
}
