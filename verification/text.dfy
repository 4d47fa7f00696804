/**
  String helpers the page relies on: `String.prototype.trim` and
  `Array.prototype.join`, over strings modelled as `seq<char>`.
 */
module Text {

  /** The characters `trim` strips: the ECMAScript WhiteSpace and
      LineTerminator code points (TAB, LF, VT, FF, CR, SPACE, NBSP,
      OGHAM SPACE MARK, EN QUAD .. HAIR SPACE, LS, PS, NNBSP, MMSP,
      IDEOGRAPHIC SPACE and the BOM). */
  predicate IsWhitespace(c: char) {
    var n := c as int;
    || (0x09 <= n <= 0x0D)
    || n == 0x20 || n == 0xA0 || n == 0x1680
    || (0x2000 <= n <= 0x200A)
    || n == 0x2028 || n == 0x2029 || n == 0x202F || n == 0x205F
    || n == 0x3000 || n == 0xFEFF
  }

  /** The set is JavaScript's, not another language's: tab, space and
      no-break space are trimmed, while the zero-width space (U+200B) and
      NEXT LINE (U+0085) are kept. */
  lemma WhitespaceExamples()
    ensures IsWhitespace('\t') && IsWhitespace(' ') && IsWhitespace('\U{A0}') && IsWhitespace('\U{FEFF}')
    ensures !IsWhitespace('\U{200B}') && !IsWhitespace('\U{85}') && !IsWhitespace('a')
  {
  }

  /** True iff every character of `s` is whitespace (the empty string included). */
  predicate IsBlank(s: string) {
    forall i :: 0 <= i < |s| ==> IsWhitespace(s[i])
  }

  /** Drops the leading whitespace: the result is the longest suffix of `s`
      that does not start with whitespace. */
  function TrimStart(s: string): (r: string)
    ensures |r| <= |s| && r == s[|s| - |r|..]
    ensures |r| > 0 ==> !IsWhitespace(r[0])
    ensures forall i :: 0 <= i < |s| - |r| ==> IsWhitespace(s[i])
  {
    if |s| > 0 && IsWhitespace(s[0]) then TrimStart(s[1..]) else s
  }

  /** Drops the trailing whitespace: the result is the longest prefix of `s`
      that does not end with whitespace. */
  function TrimEnd(s: string): (r: string)
    ensures |r| <= |s| && r == s[..|r|]
    ensures |r| > 0 ==> !IsWhitespace(r[|r| - 1])
    ensures forall i :: |r| <= i < |s| ==> IsWhitespace(s[i])
  {
    if |s| > 0 && IsWhitespace(s[|s| - 1]) then TrimEnd(s[..|s| - 1]) else s
  }

  /** Slicing a suffix again is slicing the original. */
  lemma PrefixOfSuffix<T>(s: seq<T>, k: nat, n: nat)
    requires k + n <= |s|
    ensures s[k..][..n] == s[k..k + n]
  {
  }

  /** A slice lying inside the right operand of a concatenation. */
  lemma SliceOfRight<T>(a: seq<T>, b: seq<T>, x: nat, y: nat)
    requires x <= y <= |b|
    ensures (a + b)[|a| + x..|a| + y] == b[x..y]
  {
  }

  /** How many leading characters `trim` cuts away. */
  function LeadingBlanks(s: string): (n: nat)
    ensures n <= |s|
  {
    |s| - |TrimStart(s)|
  }

  /** `s.trim()`: the piece of `s` starting right after the leading
      whitespace, neither starting nor ending with whitespace, with only
      whitespace cut away on either side. These facts determine the result. */
  function Trim(s: string): (r: string)
    ensures LeadingBlanks(s) + |r| <= |s|
    ensures r == s[LeadingBlanks(s)..LeadingBlanks(s) + |r|]
    ensures |r| > 0 ==> !IsWhitespace(r[0]) && !IsWhitespace(r[|r| - 1])
    ensures forall i :: 0 <= i < LeadingBlanks(s) ==> IsWhitespace(s[i])
    ensures forall i :: LeadingBlanks(s) + |r| <= i < |s| ==> IsWhitespace(s[i])
  {
    var t := TrimStart(s);
    var r := TrimEnd(t);
    var k := |s| - |t|;
    PrefixOfSuffix(s, k, |r|);
    TrailingCut(s, t, r, k);
    r
  }

  /** What `TrimEnd` cuts from the suffix `t` of `s` is whitespace of `s`. */
  lemma TrailingCut(s: string, t: string, r: string, k: nat)
    requires k + |t| == |s| && t == s[k..]
    requires |r| <= |t| && forall i :: |r| <= i < |t| ==> IsWhitespace(t[i])
    ensures forall i :: k + |r| <= i < |s| ==> IsWhitespace(s[i])
  {
    forall i | k + |r| <= i < |s|
      ensures IsWhitespace(s[i])
    {
      assert s[i] == t[i - k];
    }
  }

  /** `Trim`'s contract admits exactly one result: any piece of `s` with
      only whitespace around it and no whitespace at its ends is `s.trim()`. */
  lemma TrimDetermined(s: string, k: nat, r: string)
    requires k + |r| <= |s| && r == s[k..k + |r|]
    requires |r| > 0 ==> !IsWhitespace(r[0]) && !IsWhitespace(r[|r| - 1])
    requires forall i :: 0 <= i < k ==> IsWhitespace(s[i])
    requires forall i :: k + |r| <= i < |s| ==> IsWhitespace(s[i])
    ensures r == Trim(s)
  {
    // both pieces start at the first non-whitespace character of `s`
    TrimEmptyIffBlank(s);
  }

  /** A string with no whitespace at either end is its own trim. */
  lemma TrimKeepsUnpadded(s: string)
    requires |s| > 0 && !IsWhitespace(s[0]) && !IsWhitespace(s[|s| - 1])
    ensures Trim(s) == s
  {
  }

  /** `s.trim() === ""` holds exactly for the blank strings. */
  lemma TrimEmptyIffBlank(s: string)
    ensures Trim(s) == "" <==> IsBlank(s)
  {
    if Trim(s) != "" {
      assert s[LeadingBlanks(s)] == Trim(s)[0];
    }
  }

  /** Sum of the lengths of the entries. */
  function TotalLength(xs: seq<string>): nat {
    if |xs| == 0 then 0 else |xs[0]| + TotalLength(xs[1..])
  }

  /** The JavaScript `xs.join(sep)`: the entries with `sep` between
      neighbours. The empty list joins to "", a single entry to itself, and
      otherwise the text is as long as the entries plus one separator per
      gap (`JoinEntryAt` and `JoinSeparatorAfter` say where each piece sits). */
  function Join(xs: seq<string>, sep: string): (r: string)
    ensures |xs| == 0 ==> r == ""
    ensures |xs| == 1 ==> r == xs[0]
    ensures |xs| > 0 ==> |r| == TotalLength(xs) + (|xs| - 1) * |sep|
  {
    if |xs| == 0 then ""
    else if |xs| == 1 then xs[0]
    else xs[0] + sep + Join(xs[1..], sep)
  }

  /** Where entry `k` starts in `Join(xs, sep)`: after every earlier entry
      and one separator per earlier entry. */
  function EntryOffset(xs: seq<string>, sep: string, k: nat): nat
    requires k <= |xs|
  {
    if k == 0 then 0 else |xs[0]| + |sep| + EntryOffset(xs[1..], sep, k - 1)
  }

  /** Entry `k` appears verbatim at its offset in the joined text. */
  lemma {:induction false} JoinEntryAt(xs: seq<string>, sep: string, k: nat)
    requires k < |xs|
    ensures EntryOffset(xs, sep, k) + |xs[k]| <= |Join(xs, sep)|
    ensures Join(xs, sep)[EntryOffset(xs, sep, k)..EntryOffset(xs, sep, k) + |xs[k]|] == xs[k]
  {
    if k == 0 {
      if |xs| > 1 {
        assert Join(xs, sep) == xs[0] + (sep + Join(xs[1..], sep));
      }
    } else {
      var rest := Join(xs[1..], sep);
      var o := EntryOffset(xs[1..], sep, k - 1);
      JoinEntryAt(xs[1..], sep, k - 1);
      assert xs[1..][k - 1] == xs[k];
      assert Join(xs, sep) == (xs[0] + sep) + rest;
      SliceOfRight(xs[0] + sep, rest, o, o + |xs[k]|);
    }
  }

  /** When another entry follows entry `k`, the separator comes right after it. */
  lemma {:induction false} JoinSeparatorAfter(xs: seq<string>, sep: string, k: nat)
    requires k + 1 < |xs|
    ensures EntryOffset(xs, sep, k) + |xs[k]| + |sep| <= |Join(xs, sep)|
    ensures Join(xs, sep)[EntryOffset(xs, sep, k) + |xs[k]|..EntryOffset(xs, sep, k) + |xs[k]| + |sep|] == sep
  {
    var rest := Join(xs[1..], sep);
    var j := Join(xs, sep);
    if k == 0 {
      assert j == xs[0] + (sep + rest);
      assert EntryOffset(xs, sep, k) == 0;
      SliceOfRight(xs[0], sep + rest, 0, |sep|);
      assert (sep + rest)[0..|sep|] == sep;
    } else {
      var head := xs[0] + sep;
      var o := EntryOffset(xs[1..], sep, k - 1);
      var e := xs[k];
      JoinSeparatorAfter(xs[1..], sep, k - 1);
      assert xs[1..][k - 1] == e;
      assert j == head + rest && |j| == |head| + |rest|;
      assert EntryOffset(xs, sep, k) == |head| + o;
      SliceOfRight(head, rest, o + |e|, o + |e| + |sep|);
    }
  }

  /** Joining one more entry onto a non-empty list adds a separator and the entry. */
  lemma {:induction false} JoinSnoc(xs: seq<string>, sep: string, y: string)
    requires |xs| > 0
    ensures Join(xs + [y], sep) == Join(xs, sep) + sep + y
  {
    if |xs| == 1 {
      assert (xs + [y])[1..] == [y];
    } else {
      assert (xs + [y])[1..] == xs[1..] + [y];
      JoinSnoc(xs[1..], sep, y);
    }
  }
}
