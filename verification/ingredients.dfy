/**
  The page's ingredient list: an ordered sequence of free-text entries,
  rebuilt copy-on-write by every handler (app/page.tsx, lines 29-53).
 */
module IngredientList {
  import opened Text

  /** `useState<string[]>([""])`: exactly one entry, the empty string.
      Also what `clearForm` restores. */
  function Initial(): (xs: seq<string>)
    ensures xs == [""]
  {
    [""]
  }

  /** `addIngredient`: `[...ingredients, ""]`. */
  function Add(xs: seq<string>): (r: seq<string>)
    ensures |r| == |xs| + 1
    ensures r[..|xs|] == xs
    ensures r[|xs|] == ""
  {
    xs + [""]
  }

  /** `ingredients.filter((_, i) => i !== index)`: keeps every entry whose
      position differs from `index`. Positions are counted from the front,
      so the recursion peels entries off the back. */
  function OtherPositions(xs: seq<string>, index: int): (r: seq<string>)
    ensures 0 <= index < |xs| ==> r == xs[..index] + xs[index + 1..]
    ensures !(0 <= index < |xs|) ==> r == xs
  {
    if |xs| == 0 then []
    else
      var last := |xs| - 1;
      OtherPositions(xs[..last], index) + (if last == index then [] else [xs[last]])
  }

  /** `removeIngredient(index)`: drops position `index`, but only while the
      list holds more than one entry. An index outside the list matches no
      position, so the list comes back unchanged. */
  function Remove(xs: seq<string>, index: int): (r: seq<string>)
    ensures |xs| > 1 && 0 <= index < |xs| ==>
      && |r| == |xs| - 1
      && (forall j :: 0 <= j < index ==> r[j] == xs[j])
      && (forall j :: index <= j < |r| ==> r[j] == xs[j + 1])
    ensures |xs| <= 1 || !(0 <= index < |xs|) ==> r == xs
    ensures |xs| >= 1 ==> |r| >= 1
  {
    if |xs| > 1 then OtherPositions(xs, index) else xs
  }

  /** `updateIngredient(index, value)` for an index inside the list:
      position `index` now holds `value`, every other position is kept. */
  function Update(xs: seq<string>, index: int, value: string): (r: seq<string>)
    requires 0 <= index < |xs|
    ensures |r| == |xs|
    ensures r[index] == value
    ensures forall j :: 0 <= j < |xs| && j != index ==> r[j] == xs[j]
  {
    xs[index := value]
  }

  /** An entry that survives the submit filter (`ing.trim() !== ""`):
      some character of it is not whitespace. `UsableIffTrimNonEmpty`
      shows this is exactly a non-empty trim. */
  predicate IsUsable(entry: string) {
    !IsBlank(entry)
  }

  /** The filter's test is the trim test of the page. */
  lemma UsableIffTrimNonEmpty(entry: string)
    ensures IsUsable(entry) <==> Trim(entry) != ""
  {
    TrimEmptyIffBlank(entry);
  }

  /** `ingredients.filter(ing => ing.trim() !== "")`: no longer than the
      list, and every entry kept is usable. `UsableIsSubsequence` and
      `UsableCounts` pin down which entries are kept and in what order. */
  function Usable(xs: seq<string>): (r: seq<string>)
    ensures |r| <= |xs|
    ensures forall j :: 0 <= j < |r| ==> IsUsable(r[j])
  {
    if |xs| == 0 then []
    else if IsUsable(xs[0]) then [xs[0]] + Usable(xs[1..])
    else Usable(xs[1..])
  }

  /** `a` is obtained from `b` by deleting entries, keeping the order of
      the rest (greedy matching decides this exactly). */
  predicate IsSubsequence(a: seq<string>, b: seq<string>)
    decreases |b|
  {
    if |a| == 0 then true
    else if |b| == 0 then false
    else if a[0] == b[0] then IsSubsequence(a[1..], b[1..])
    else IsSubsequence(a, b[1..])
  }

  /** The filter keeps the original order. */
  lemma {:induction false} UsableIsSubsequence(xs: seq<string>)
    ensures IsSubsequence(Usable(xs), xs)
  {
    if |xs| > 0 {
      UsableIsSubsequence(xs[1..]);
      var r := Usable(xs);
      if IsUsable(xs[0]) {
        assert r[1..] == Usable(xs[1..]);
      } else if |r| > 0 {
        assert r[0] != xs[0];
      }
    }
  }

  /** How many entries of `xs` equal `e`. */
  function Occurrences(xs: seq<string>, e: string): nat {
    if |xs| == 0 then 0 else (if xs[0] == e then 1 else 0) + Occurrences(xs[1..], e)
  }

  /** The filter keeps every usable entry as often as it occurs and drops
      every other entry. */
  lemma {:induction false} UsableCounts(xs: seq<string>, e: string)
    ensures Occurrences(Usable(xs), e) == if IsUsable(e) then Occurrences(xs, e) else 0
  {
    if |xs| > 0 {
      UsableCounts(xs[1..], e);
      var head, tail := xs[0], xs[1..];
      if IsUsable(head) {
        assert Usable(xs) == [head] + Usable(tail);
        assert ([head] + Usable(tail))[1..] == Usable(tail);
      } else {
        assert Usable(xs) == Usable(tail);
      }
    }
  }

  /** A subsequence holds no value more often than the list it comes from. */
  lemma {:induction false} SubsequenceOccurrences(a: seq<string>, b: seq<string>, e: string)
    requires IsSubsequence(a, b)
    ensures Occurrences(a, e) <= Occurrences(b, e)
    decreases |b|
  {
    if |a| > 0 {
      if a[0] == b[0] {
        SubsequenceOccurrences(a[1..], b[1..], e);
      } else {
        SubsequenceOccurrences(a, b[1..], e);
      }
    }
  }

  /** The two lemmas above determine the filter: any order-preserving
      selection from `xs` with the filter's occurrence counts is `Usable(xs)`. */
  lemma {:induction false} UsableDetermined(r: seq<string>, xs: seq<string>)
    requires IsSubsequence(r, xs)
    requires forall e :: Occurrences(r, e) == if IsUsable(e) then Occurrences(xs, e) else 0
    ensures r == Usable(xs)
  {
    if |xs| > 0 {
      var x, t := xs[0], xs[1..];
      if IsUsable(x) {
        assert Occurrences(r, x) > 0;
        if r[0] != x {
          SubsequenceOccurrences(r, t, x);
          assert false;
        }
        assert forall e :: Occurrences(r[1..], e) == if IsUsable(e) then Occurrences(t, e) else 0;
        UsableDetermined(r[1..], t);
        assert r == [x] + r[1..];
      } else {
        assert Occurrences(r, x) == 0;
        assert |r| == 0 || r[0] != x;
        UsableDetermined(r, t);
      }
    }
  }

  /** Filtering commutes with concatenation. */
  lemma {:induction false} UsableAppend(xs: seq<string>, ys: seq<string>)
    ensures Usable(xs + ys) == Usable(xs) + Usable(ys)
  {
    if |xs| == 0 {
      assert xs + ys == ys;
    } else {
      assert (xs + ys)[0] == xs[0];
      assert (xs + ys)[1..] == xs[1..] + ys;
      UsableAppend(xs[1..], ys);
    }
  }

  /** Nothing survives the filter exactly when every entry is blank. */
  lemma {:induction false} UsableEmptyIffAllBlank(xs: seq<string>)
    ensures Usable(xs) == [] <==> forall j :: 0 <= j < |xs| ==> IsBlank(xs[j])
  {
    if |xs| > 0 {
      UsableEmptyIffAllBlank(xs[1..]);
      assert forall j :: 1 <= j < |xs| ==> xs[j] == xs[1..][j - 1];
    }
  }
}
