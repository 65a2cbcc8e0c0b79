/**
 * String operations from Go's standard library that the core relies on:
 * `strings.ReplaceAll(s, old, "")` (remove every non-overlapping occurrence of
 * `old`, scanning left to right) and `strings.Join`.
 */
module Text {

  /** `p` occurs in `s` starting at index `i`. */
  predicate OccursAt(s: string, p: string, i: nat)
  {
    i + |p| <= |s| && s[i..i + |p|] == p
  }

  /** `p` is a substring of `s`. */
  ghost predicate Contains(s: string, p: string)
  {
    exists i: nat :: OccursAt(s, p, i)
  }

  /**
   * `strings.ReplaceAll(s, p, "")` for a non-empty `p`: the leftmost occurrence
   * is removed, scanning resumes right after it, and text before it is kept.
   */
  function RemoveAll(s: string, p: string): (r: string)
    requires p != ""
    ensures |r| <= |s|
    decreases |s|
  {
    if |s| < |p| then s
    else if s[..|p|] == p then RemoveAll(s[|p|..], p)
    else [s[0]] + RemoveAll(s[1..], p)
  }

  /** Every occurrence of `p` costs the result at least |p| characters. */
  lemma {:induction false} RemoveAllShrinks(s: string, p: string, i: nat)
    requires p != "" && OccursAt(s, p, i)
    ensures |RemoveAll(s, p)| <= |s| - |p|
    decreases i
  {
    if s[..|p|] != p {
      assert i != 0;
      assert s[1..][i - 1..i - 1 + |p|] == s[i..i + |p|];
      RemoveAllShrinks(s[1..], p, i - 1);
    }
  }

  /** Without an occurrence of `p` there is nothing to remove. */
  lemma {:induction false} RemoveAllNoOccurrence(s: string, p: string)
    requires p != "" && !Contains(s, p)
    ensures RemoveAll(s, p) == s
    decreases |s|
  {
    if |s| >= |p| {
      assert !OccursAt(s, p, 0);
      forall i: nat | OccursAt(s[1..], p, i)
        ensures OccursAt(s, p, i + 1)
      {
        assert s[1..][i..i + |p|] == s[i + 1..i + 1 + |p|];
      }
      RemoveAllNoOccurrence(s[1..], p);
      assert [s[0]] + s[1..] == s;
    }
  }

  /** Removal leaves `s` as it is exactly when `p` does not occur in `s`. */
  lemma RemoveAllUnchangedIff(s: string, p: string)
    requires p != ""
    ensures RemoveAll(s, p) == s <==> !Contains(s, p)
  {
    if Contains(s, p) {
      var i: nat :| OccursAt(s, p, i);
      RemoveAllShrinks(s, p, i);
    } else {
      RemoveAllNoOccurrence(s, p);
    }
  }

  /** A leading occurrence is removed and the rest is processed on its own. */
  lemma RemoveAllLeading(p: string, t: string)
    requires p != ""
    ensures RemoveAll(p + t, p) == RemoveAll(t, p)
  {
    assert (p + t)[..|p|] == p;
    assert (p + t)[|p|..] == t;
  }

  /** The first occurrence is removed wherever it stands; the text before it is kept. */
  lemma {:induction false} RemoveAllFirstOccurrence(a: string, p: string, b: string)
    requires p != ""
    requires forall i :: 0 <= i < |a| ==> !OccursAt(a + p + b, p, i)
    ensures RemoveAll(a + p + b, p) == a + RemoveAll(b, p)
    decreases |a|
  {
    var s := a + p + b;
    if a == [] {
      assert s == p + b;
      RemoveAllLeading(p, b);
    } else {
      var t := a[1..] + p + b;
      assert s == [a[0]] + t;
      assert s[1..] == t;
      assert !OccursAt(s, p, 0);
      assert s[..|p|] != p;
      assert RemoveAll(s, p) == [a[0]] + RemoveAll(t, p);
      forall i | 0 <= i < |a| - 1
        ensures !OccursAt(t, p, i)
      {
        assert !OccursAt(s, p, i + 1);
        assert t[i..i + |p|] == s[i + 1..i + 1 + |p|];
      }
      RemoveAllFirstOccurrence(a[1..], p, b);
      assert [a[0]] + a[1..] == a;
    }
  }

  /** Removing the single space leaves nothing exactly when `s` is all spaces. */
  lemma {:induction false} RemoveSpacesEmptyIff(s: string)
    ensures RemoveAll(s, " ") == "" <==> forall i :: 0 <= i < |s| ==> s[i] == ' '
    decreases |s|
  {
    if s != "" {
      RemoveSpacesEmptyIff(s[1..]);
      if s[0] == ' ' {
        assert s[..1] == " ";
        forall i | 1 <= i < |s| ensures s[i] == s[1..][i - 1] { }
      }
    }
  }

  /** `strings.Join(parts, sep)`. */
  function Join(parts: seq<string>, sep: string): (r: string)
    ensures parts == [] ==> r == ""
    ensures parts != [] ==> parts[0] <= r
  {
    if |parts| == 0 then ""
    else if |parts| == 1 then parts[0]
    else parts[0] + sep + Join(parts[1..], sep)
  }

  /** Joining a concatenation puts one separator between the two joined halves. */
  lemma {:induction false} JoinConcat(a: seq<string>, b: seq<string>, sep: string)
    requires a != [] && b != []
    ensures Join(a + b, sep) == Join(a, sep) + sep + Join(b, sep)
    decreases |a|
  {
    if |a| == 1 {
      assert (a + b)[1..] == b;
    } else {
      assert (a + b)[1..] == a[1..] + b;
      JoinConcat(a[1..], b, sep);
    }
  }
}
