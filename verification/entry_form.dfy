/**
 * The data rules of the entry form (src/components/form/EntryForm.tsx, and
 * its older copy src/components/EntryForm.tsx, which has the same code):
 * adding comma-separated components to a combo field, removing one, and
 * ordering the fields for display.
 */
module EntryForms {
  import opened Wrappers
  import opened Chars
  import opened Entries
  import Ranking

  /* ---------------------------------------------------------------------- */
  /* Adding components                                                       */
  /* ---------------------------------------------------------------------- */

  /** `pieces.filter((c) => c.length)`: the empty pieces go, every other
      piece stays as often as it occurs (and, by NonEmptyAppend, in order). */
  function NonEmpty(pieces: seq<string>): (r: seq<string>)
    ensures forall c :: c in r <==> c in pieces && c != ""
    ensures forall c :: c != "" ==> multiset(r)[c] == multiset(pieces)[c]
  {
    if pieces == [] then []
    else
      assert pieces == [pieces[0]] + pieces[1..];
      (if pieces[0] != "" then [pieces[0]] else []) + NonEmpty(pieces[1..])
  }

  /** Filtering works piece by piece, so the kept pieces keep their order. */
  lemma {:induction false} NonEmptyAppend(a: seq<string>, b: seq<string>)
    ensures NonEmpty(a + b) == NonEmpty(a) + NonEmpty(b)
  {
    if a == [] {
      assert a + b == b;
    } else {
      assert (a + b)[0] == a[0] && (a + b)[1..] == a[1..] + b;
      NonEmptyAppend(a[1..], b);
      var head := if a[0] != "" then [a[0]] else [];
      assert head + (NonEmpty(a[1..]) + NonEmpty(b)) == (head + NonEmpty(a[1..])) + NonEmpty(b);
    }
  }

  /** `pieces.map((c) => c.trim())`. */
  function TrimAll(pieces: seq<string>): (r: seq<string>)
    ensures |r| == |pieces| && forall i :: 0 <= i < |r| ==> r[i] == Trim(pieces[i])
    ensures forall c :: c in r <==> exists p :: p in pieces && Trim(p) == c
  {
    var r := seq(|pieces|, i requires 0 <= i < |pieces| => Trim(pieces[i]));
    forall p | p in pieces
      ensures Trim(p) in r
    {
      var i :| 0 <= i < |pieces| && pieces[i] == p;
      assert r[i] == Trim(p);
    }
    r
  }

  /** `component.split(",").map((c) => c.trim()).filter((c) => c.length)`. */
  function NewComponents(component: string): (r: seq<string>)
    ensures forall c :: c in r <==> c != "" && exists p :: p in Split(component, ',') && Trim(p) == c
  {
    NonEmpty(TrimAll(Split(component, ',')))
  }

  /** Trimming only removes characters. */
  lemma TrimInside(s: string)
    ensures forall c :: c in Trim(s) ==> c in s
  {
    var k := |s| - |TrimStart(s)|;
    assert Trim(s) == s[k..k + |Trim(s)|];
  }

  /** The new components are non-empty, hold no comma and do not start or
      end with whitespace. */
  lemma NewComponentsClean(component: string)
    ensures forall c :: c in NewComponents(component) ==>
      c != "" && ',' !in c && !IsWhitespace(c[0]) && !IsWhitespace(c[|c| - 1])
  {
    var pieces := Split(component, ',');
    var trimmed := TrimAll(pieces);
    forall c | c in NewComponents(component)
      ensures c != "" && ',' !in c && !IsWhitespace(c[0]) && !IsWhitespace(c[|c| - 1])
    {
      assert c in trimmed;
      var i :| 0 <= i < |trimmed| && trimmed[i] == c;
      TrimInside(pieces[i]);
    }
  }

  /** The components after appending `pieces` one at a time, skipping each
      that is already there. */
  function Merge(existing: seq<string>, pieces: seq<string>): (r: seq<string>)
    ensures existing <= r
    ensures forall c :: c in r <==> c in existing || c in pieces
  {
    if pieces == [] then existing
    else
      var merged := Merge(existing, pieces[..|pieces| - 1]);
      var c := pieces[|pieces| - 1];
      if c in merged then merged else merged + [c]
  }

  /** `handleAddComponent(component)`: `None` when no piece is left and the
      change handler is not called, otherwise the list it is called with. */
  method AddComponents(components: seq<string>, component: string) returns (r: Option<seq<string>>)
    ensures NewComponents(component) == [] ==> r.None?
    ensures NewComponents(component) != [] ==> r == Some(Merge(components, NewComponents(component)))
  {
    var newComponents := NewComponents(component);
    if |newComponents| == 0 {
      return None;
    }

    var existingComponents: set<string> := set c | c in components;
    var mergedComponents := components;
    for i := 0 to |newComponents|
      invariant mergedComponents == Merge(components, newComponents[..i])
      invariant forall c :: c in existingComponents <==> c in mergedComponents
    {
      var c := newComponents[i];
      assert newComponents[..i + 1][..i] == newComponents[..i];
      if c !in existingComponents {
        mergedComponents := mergedComponents + [c];
        existingComponents := existingComponents + {c};
      }
    }
    assert newComponents[..|newComponents|] == newComponents;
    r := Some(mergedComponents);
  }

  /** The pieces that are not yet among the components. */
  function Absent(existing: seq<string>, pieces: seq<string>): seq<string> {
    if pieces == [] then []
    else Absent(existing, pieces[..|pieces| - 1]) + (if pieces[|pieces| - 1] in existing then [] else [pieces[|pieces| - 1]])
  }

  /** One more piece, already among the existing components, changes
      nothing. */
  lemma MergePresentStep(existing: seq<string>, pieces: seq<string>)
    requires pieces != [] && pieces[|pieces| - 1] in existing
    requires Merge(existing, pieces[..|pieces| - 1])
      == existing + Ranking.Distinct(Absent(existing, pieces[..|pieces| - 1]))
    ensures Merge(existing, pieces) == existing + Ranking.Distinct(Absent(existing, pieces))
  {
    var absent := Absent(existing, pieces[..|pieces| - 1]);
    assert Absent(existing, pieces) == absent + [];
    assert absent + [] == absent;
    assert pieces[|pieces| - 1] in Merge(existing, pieces[..|pieces| - 1]);
  }

  /** One more piece, not among the existing components, is appended unless
      an earlier piece already added it. */
  lemma MergeAbsentStep(existing: seq<string>, pieces: seq<string>)
    requires pieces != [] && pieces[|pieces| - 1] !in existing
    requires Merge(existing, pieces[..|pieces| - 1])
      == existing + Ranking.Distinct(Absent(existing, pieces[..|pieces| - 1]))
    ensures Merge(existing, pieces) == existing + Ranking.Distinct(Absent(existing, pieces))
  {
    var c := pieces[|pieces| - 1];
    var absent := Absent(existing, pieces[..|pieces| - 1]);
    var added := Ranking.Distinct(absent);
    assert Absent(existing, pieces) == absent + [c];
    var grown := absent + [c];
    assert grown[..|grown| - 1] == absent && grown[|grown| - 1] == c;
    assert Ranking.Distinct(grown) == if c in added then added else added + [c];
    assert c in Merge(existing, pieces[..|pieces| - 1]) <==> c in added;
    assert existing + (added + [c]) == (existing + added) + [c];
  }

  /** The merge keeps the existing components as they are and appends each
      absent piece once, at its first occurrence in the input. */
  lemma {:induction false} MergeAppends(existing: seq<string>, pieces: seq<string>)
    ensures Merge(existing, pieces) == existing + Ranking.Distinct(Absent(existing, pieces))
  {
    if pieces != [] {
      MergeAppends(existing, pieces[..|pieces| - 1]);
      if pieces[|pieces| - 1] in existing {
        MergePresentStep(existing, pieces);
      } else {
        MergeAbsentStep(existing, pieces);
      }
    }
  }

  lemma {:induction false} AbsentFacts(existing: seq<string>, pieces: seq<string>)
    ensures |Absent(existing, pieces)| <= |pieces|
    ensures forall c :: c in Absent(existing, pieces) <==> c in pieces && c !in existing
  {
    if pieces != [] {
      AbsentFacts(existing, pieces[..|pieces| - 1]);
      assert pieces == pieces[..|pieces| - 1] + [pieces[|pieces| - 1]];
    }
  }

  lemma {:induction false} DistinctLength(xs: seq<string>)
    ensures |Ranking.Distinct(xs)| <= |xs|
  {
    if xs != [] {
      DistinctLength(xs[..|xs| - 1]);
    }
  }

  /** The old list is a prefix of the merge, the merge holds exactly the old
      and the new components, and it grows by at most one per piece. */
  lemma MergeKeeps(existing: seq<string>, pieces: seq<string>)
    ensures existing <= Merge(existing, pieces)
    ensures forall c :: c in Merge(existing, pieces) <==> c in existing || c in pieces
    ensures |Merge(existing, pieces)| <= |existing| + |pieces|
  {
    MergeAppends(existing, pieces);
    AbsentFacts(existing, pieces);
    DistinctLength(Absent(existing, pieces));
  }

  /** A duplicate-free list stays duplicate-free. */
  lemma MergeNoDuplicates(existing: seq<string>, pieces: seq<string>)
    requires forall c :: multiset(existing)[c] <= 1
    ensures forall c :: multiset(Merge(existing, pieces))[c] <= 1
  {
    MergeAppends(existing, pieces);
    AbsentFacts(existing, pieces);
    var added := Ranking.Distinct(Absent(existing, pieces));
    forall c ensures multiset(existing + added)[c] <= 1 {
      if c in added {
        assert c !in multiset(existing);
      }
    }
  }

  /** When every piece is already there, the list comes back unchanged. */
  lemma MergeNothingNew(existing: seq<string>, pieces: seq<string>)
    requires forall c :: c in pieces ==> c in existing
    ensures Merge(existing, pieces) == existing
  {
    MergeAppends(existing, pieces);
    AbsentFacts(existing, pieces);
    assert existing + [] == existing;
  }

  /* ---------------------------------------------------------------------- */
  /* Removing a component                                                    */
  /* ---------------------------------------------------------------------- */

  /** `components.filter((c) => v !== c)`. */
  function Remove(components: seq<string>, v: string): (r: seq<string>)
    ensures v !in r
    ensures forall c :: c != v ==> multiset(r)[c] == multiset(components)[c]
  {
    if components == [] then []
    else
      assert components == [components[0]] + components[1..];
      (if components[0] != v then [components[0]] else []) + Remove(components[1..], v)
  }

  /** Removal works piece by piece, so the rest keep their order. */
  lemma {:induction false} RemoveAppend(a: seq<string>, b: seq<string>, v: string)
    ensures Remove(a + b, v) == Remove(a, v) + Remove(b, v)
  {
    if a == [] {
      assert a + b == b;
    } else {
      assert (a + b)[0] == a[0] && (a + b)[1..] == a[1..] + b;
      RemoveAppend(a[1..], b, v);
      var head := if a[0] != v then [a[0]] else [];
      assert head + (Remove(a[1..], v) + Remove(b, v)) == (head + Remove(a[1..], v)) + Remove(b, v);
    }
  }

  /* ---------------------------------------------------------------------- */
  /* Field order                                                             */
  /* ---------------------------------------------------------------------- */

  /** The first `n` fields are in ascending order. */
  predicate SortedPrefix(fields: seq<FieldDefinition>, n: int) {
    forall a, b :: 0 <= a < b < n && b < |fields| ==> fields[a].order <= fields[b].order
  }

  /** `fields.sort((a, b) => a.order - b.order)`, in place. */
  method SortFields(fields: array<FieldDefinition>)
    modifies fields
    ensures SortedPrefix(fields[..], fields.Length)
    ensures multiset(fields[..]) == old(multiset(fields[..]))
  {
    for i := 0 to fields.Length
      invariant SortedPrefix(fields[..], i)
      invariant multiset(fields[..]) == old(multiset(fields[..]))
    {
      SinkLast(fields, i);
    }
  }

  /** `s` with the neighbours at `j - 1` and `j` exchanged. */
  function Swap(s: seq<FieldDefinition>, j: nat): (t: seq<FieldDefinition>)
    requires 0 < j < |s|
    ensures |t| == |s| && t[j - 1] == s[j] && t[j] == s[j - 1]
    ensures forall k :: 0 <= k < |s| && k != j - 1 && k != j ==> t[k] == s[k]
  {
    s[j - 1 := s[j]][j := s[j - 1]]
  }

  /** Swapping two neighbours keeps the multiset. */
  lemma SwapPermutes(s: seq<FieldDefinition>, j: nat)
    requires 0 < j < |s|
    ensures multiset(Swap(s, j)) == multiset(s)
  {
    assert s == s[..j - 1] + [s[j - 1], s[j]] + s[j + 1..];
    assert Swap(s, j) == s[..j - 1] + [s[j], s[j - 1]] + s[j + 1..];
  }

  /** Half way through sinking `s[j]`, which started at position `i`: the
      first `i + 1` fields are sorted except that `s[j]` is smaller than
      everything after it up to `i`. */
  predicate Sinking(s: seq<FieldDefinition>, j: nat, i: nat) {
    j <= i < |s|
    && (forall a, b :: 0 <= a < b < j ==> s[a].order <= s[b].order)
    && (forall a, b :: j < a < b <= i ==> s[a].order <= s[b].order)
    && (forall a, b :: 0 <= a < j < b <= i ==> s[a].order <= s[b].order)
    && (forall b :: j < b <= i ==> s[j].order < s[b].order)
  }

  lemma SinkStart(s: seq<FieldDefinition>, i: nat)
    requires i < |s| && SortedPrefix(s, i)
    ensures Sinking(s, i, i)
  {
  }

  lemma SinkStep(s: seq<FieldDefinition>, j: nat, i: nat)
    requires Sinking(s, j, i) && 0 < j && s[j - 1].order > s[j].order
    ensures Sinking(Swap(s, j), j - 1, i)
  {
  }

  lemma SinkDone(s: seq<FieldDefinition>, j: nat, i: nat)
    requires Sinking(s, j, i) && (j == 0 || s[j - 1].order <= s[j].order)
    ensures SortedPrefix(s, i + 1)
  {
  }

  /** Moves `fields[i]` left past every larger order, so that the first
      `i + 1` fields are sorted. */
  method SinkLast(fields: array<FieldDefinition>, i: nat)
    requires i < fields.Length && SortedPrefix(fields[..], i)
    modifies fields
    ensures SortedPrefix(fields[..], i + 1)
    ensures multiset(fields[..]) == old(multiset(fields[..]))
  {
    SinkStart(fields[..], i);
    var j := i;
    while j > 0 && fields[j - 1].order > fields[j].order
      invariant 0 <= j && Sinking(fields[..], j, i)
      invariant multiset(fields[..]) == old(multiset(fields[..]))
    {
      ghost var before := fields[..];
      SinkStep(before, j, i);
      SwapPermutes(before, j);
      fields[j - 1], fields[j] := fields[j], fields[j - 1];
      assert fields[..] == Swap(before, j);
      j := j - 1;
    }
    SinkDone(fields[..], j, i);
  }
}
