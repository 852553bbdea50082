/**
 The selection state of the grid that lists the items of a carousel or story
 list: `selectedIndices`, the indices of the chosen tiles in the order they
 were chosen, and the transitions the tile clicks, the select-all button and
 the download button apply to it. The grid shows `n` tiles, numbered 0 to
 n - 1.
 */
module SelectionGrid {

  /** `selectedIndices` */
  type Selection = seq<int>

  predicate NoDuplicates(s: Selection) {
    forall i, j :: 0 <= i < j < |s| ==> s[i] != s[j]
  }

  /** Every selected index names a tile, and none is selected twice. */
  predicate Valid(s: Selection, n: nat) {
    NoDuplicates(s) && forall k :: 0 <= k < |s| ==> 0 <= s[k] < n
  }

  // ---------------------------------------------------------------------------
  // Transitions
  // ---------------------------------------------------------------------------

  /** `s.filter(i => i !== x)`: every occurrence of `x` removed, the rest in order. */
  function Without(s: Selection, x: int): (r: Selection)
    ensures multiset(r) == multiset(s)[x := 0]
    ensures forall y :: y in r <==> y in s && y != x
  {
    if |s| == 0 then []
    else
      assert s == [s[0]] + s[1..];
      (if s[0] == x then [] else [s[0]]) + Without(s[1..], x)
  }

  /** A tile click: a selected index is dropped, any other is appended at the end. */
  function Toggle(s: Selection, i: int): (r: Selection)
    ensures i in r <==> i !in s
    ensures forall j :: j != i ==> (j in r <==> j in s)
    ensures i !in s ==> |r| == |s| + 1 && r[..|s|] == s && r[|s|] == i
    ensures i in s ==> multiset(r) == multiset(s)[i := 0]
  {
    if i in s then Without(s, i) else s + [i]
  }

  /** The select-all button: everything is dropped when as many indices are selected as there are tiles; otherwise every tile is selected, in order. */
  function ToggleAll(s: Selection, n: nat): (r: Selection)
    ensures |s| == n ==> r == []
    ensures |s| != n ==> |r| == n && forall k :: 0 <= k < n ==> r[k] == k
    ensures Valid(r, n)
  {
    if |s| == n then [] else seq(n, k requires 0 <= k < n => k)
  }

  /** What the download button does: hand the selection over, close the grid and clear the selection. */
  datatype DownloadStep = DownloadStep(delivered: Selection, closed: bool, selection: Selection)

  function HandleDownload(s: Selection): (r: DownloadStep)
    ensures r.delivered == s && r.closed
    ensures r.selection == []
  {
    DownloadStep(s, true, [])
  }

  /** What the grid shows of the selection: the count, the select-all button's label and whether downloading is disabled. */
  datatype View = View(count: nat, toggleLabel: string, downloadDisabled: bool)

  const DeselectAll := "Deselect All"
  const SelectAll := "Select All"

  function ViewOf(s: Selection, n: nat): (v: View)
    ensures v.count == |s|
    ensures v.toggleLabel == DeselectAll <==> |s| == n
    ensures v.toggleLabel in {DeselectAll, SelectAll}
    ensures v.downloadDisabled <==> |s| == 0
  {
    View(|s|, if |s| == n then DeselectAll else SelectAll, |s| == 0)
  }

  // ---------------------------------------------------------------------------
  // Counting distinct indices
  // ---------------------------------------------------------------------------

  /** No duplicates means every index occurs at most once. */
  lemma {:induction false} DistinctCounts(s: Selection)
    ensures NoDuplicates(s) <==> forall y :: multiset(s)[y] <= 1
  {
    if |s| > 0 {
      var rest := s[1..];
      assert s == [s[0]] + rest;
      DistinctCounts(rest);
      assert NoDuplicates(s) <==> s[0] !in rest && NoDuplicates(rest) by {
        if NoDuplicates(s) {
          forall i, j | 0 <= i < j < |rest| ensures rest[i] != rest[j] {
            assert rest[i] == s[i + 1] && rest[j] == s[j + 1];
          }
          forall k | 0 <= k < |rest| ensures rest[k] != s[0] {
            assert rest[k] == s[k + 1];
          }
        }
        if s[0] !in rest && NoDuplicates(rest) {
          forall i, j | 0 <= i < j < |s| ensures s[i] != s[j] {
            assert s[j] == rest[j - 1];
            if i > 0 {
              assert s[i] == rest[i - 1];
            }
          }
        }
      }
      assert forall y :: multiset(s)[y] == multiset(rest)[y] + (if y == s[0] then 1 else 0);
      if forall y :: multiset(s)[y] <= 1 {
        assert multiset(s)[s[0]] <= 1;
        assert multiset(rest)[s[0]] == 0;
      }
    }
  }

  /** The set of tiles 0 to n - 1. */
  function Tiles(n: nat): (t: set<int>)
    ensures forall i :: i in t <==> 0 <= i < n
    ensures |t| == n
  {
    if n == 0 then {} else Tiles(n - 1) + {n - 1}
  }

  /** A sequence without duplicates drawn from `allowed` is no longer than `allowed` is large. */
  lemma {:induction false} DistinctBound(s: Selection, allowed: set<int>)
    requires NoDuplicates(s) && forall k :: 0 <= k < |s| ==> s[k] in allowed
    ensures |s| <= |allowed|
  {
    if |s| > 0 {
      var rest := s[1..];
      assert forall k :: 0 <= k < |rest| ==> rest[k] == s[k + 1];
      assert allowed == (allowed - {s[0]}) + {s[0]};
      DistinctBound(rest, allowed - {s[0]});
    }
  }

  /** The members of a sequence are no more numerous than its elements. */
  lemma {:induction false} MembersBound(s: Selection)
    ensures |set x | x in s| <= |s|
  {
    if |s| > 0 {
      MembersBound(s[1..]);
      assert (set x | x in s) == (set x | x in s[1..]) + {s[0]};
    }
  }

  /** A valid selection that leaves a tile out is shorter than the number of tiles. */
  lemma MissingTileShortens(s: Selection, n: nat, v: int)
    requires Valid(s, n) && 0 <= v < n && v !in s
    ensures |s| < n
  {
    assert Tiles(n) == (Tiles(n) - {v}) + {v};
    DistinctBound(s, Tiles(n) - {v});
  }

  // ---------------------------------------------------------------------------
  // Properties
  // ---------------------------------------------------------------------------

  /** For a valid selection, as many indices as tiles means every tile is selected, and conversely. */
  lemma FullIffAllSelected(s: Selection, n: nat)
    requires Valid(s, n)
    ensures |s| == n <==> forall i :: 0 <= i < n ==> i in s
  {
    if |s| == n {
      forall i | 0 <= i < n ensures i in s {
        if i !in s {
          MissingTileShortens(s, n, i);
          assert false;
        }
      }
    }
    if forall i :: 0 <= i < n ==> i in s {
      DistinctBound(s, Tiles(n));
      var all := seq(n, k requires 0 <= k < n => k);
      var members := set x | x in s;
      assert forall k :: 0 <= k < n ==> all[k] in members;
      DistinctBound(all, members);
      MembersBound(s);
    }
  }

  /** A tile click keeps the selection valid. */
  lemma ToggleKeepsValid(s: Selection, n: nat, i: int)
    requires Valid(s, n) && 0 <= i < n
    ensures Valid(Toggle(s, i), n)
  {
    var r := Toggle(s, i);
    DistinctCounts(s);
    if i in s {
      assert forall y :: multiset(r)[y] <= multiset(s)[y];
    } else {
      assert forall y :: multiset(r)[y] == multiset(s)[y] + (if y == i then 1 else 0);
    }
    DistinctCounts(r);
    forall k | 0 <= k < |r| ensures 0 <= r[k] < n {
      assert r[k] in r;
    }
  }

  /** Clicking a tile twice restores which tiles are selected; when the tile was not selected, it restores the very sequence. */
  lemma ToggleTwice(s: Selection, i: int)
    ensures forall j :: j in Toggle(Toggle(s, i), i) <==> j in s
    ensures i !in s ==> Toggle(Toggle(s, i), i) == s
  {
    if i !in s {
      WithoutAbsent(s, i);
      WithoutLast(s, i);
    }
  }

  /** Filtering out an index that is not there changes nothing. */
  lemma {:induction false} WithoutAbsent(s: Selection, x: int)
    requires x !in s
    ensures Without(s, x) == s
  {
    if |s| > 0 {
      assert s[0] != x && x !in s[1..];
      WithoutAbsent(s[1..], x);
      assert Without(s, x) == [s[0]] + Without(s[1..], x);
      assert s == [s[0]] + s[1..];
    }
  }

  /** Filtering out an index that was just appended to a sequence free of it gives the sequence back. */
  lemma {:induction false} WithoutLast(s: Selection, x: int)
    requires x !in s
    ensures Without(s + [x], x) == Without(s, x)
  {
    if |s| == 0 {
      assert [x][1..] == [];
    } else {
      assert (s + [x])[1..] == s[1..] + [x];
      WithoutLast(s[1..], x);
    }
  }

  /** One step of the filter: the head is kept unless it is `x`. */
  lemma WithoutCons(h: int, t: Selection, x: int)
    ensures Without([h] + t, x) == (if h == x then [] else [h]) + Without(t, x)
  {
    assert ([h] + t)[0] == h && ([h] + t)[1..] == t;
  }

  lemma ConcatAssoc(p: Selection, q: Selection, r: Selection)
    ensures p + (q + r) == (p + q) + r
  {
  }

  /** Filtering distributes over concatenation: what is kept of each part stays in its place, so the order of the kept indices is that of the input. */
  lemma {:induction false} WithoutConcat(a: Selection, b: Selection, x: int)
    ensures Without(a + b, x) == Without(a, x) + Without(b, x)
  {
    if |a| == 0 {
      assert a + b == b;
    } else {
      var h, t := a[0], a[1..];
      assert a == [h] + t;
      assert a + b == [h] + (t + b);
      WithoutCons(h, t + b, x);
      WithoutCons(h, t, x);
      WithoutConcat(t, b, x);
      ConcatAssoc(if h == x then [] else [h], Without(t, x), Without(b, x));
    }
  }

  /** In a sequence without duplicates, the element at position k occurs neither before nor after it. */
  lemma OnlyOccurrence(s: Selection, k: nat)
    requires NoDuplicates(s) && k < |s|
    ensures s[k] !in s[..k] && s[k] !in s[k + 1..]
  {
  }

  /** Unselecting the tile at position k of a selection without duplicates closes the gap: the other indices keep their order. */
  lemma ToggleClosesGap(s: Selection, k: nat)
    requires NoDuplicates(s) && k < |s|
    ensures Toggle(s, s[k]) == s[..k] + s[k + 1..]
  {
    var x, before, after := s[k], s[..k], s[k + 1..];
    assert s == before + [x] + after;
    OnlyOccurrence(s, k);
    WithoutConcat(before, [x], x);
    WithoutAbsent(before, x);
    assert [x][1..] == [];
    assert Without([x], x) == [];
    assert Without(before + [x], x) == before;
    WithoutConcat(before + [x], after, x);
    WithoutAbsent(after, x);
    assert x in s;
  }

  /** On a valid selection, the button reads "Deselect All" exactly when every tile is selected, and downloading is disabled exactly when no tile is. */
  lemma ViewMeaning(s: Selection, n: nat)
    requires Valid(s, n)
    ensures ViewOf(s, n).toggleLabel == DeselectAll <==> forall i :: 0 <= i < n ==> i in s
    ensures ViewOf(s, n).downloadDisabled <==> forall i :: 0 <= i < n ==> i !in s
  {
    FullIffAllSelected(s, n);
    if |s| > 0 {
      assert s[0] in s && 0 <= s[0] < n;
    }
  }

  /** After a download the grid shows nothing selected, disables the button, and offers to select all tiles. */
  lemma AfterDownload(s: Selection, n: nat)
    requires n > 0
    ensures var v := ViewOf(HandleDownload(s).selection, n);
      v.count == 0 && v.downloadDisabled && v.toggleLabel == SelectAll
    ensures ToggleAll(HandleDownload(s).selection, n) == seq(n, k requires 0 <= k < n => k)
  {
  }
}
