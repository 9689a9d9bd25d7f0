/** Prompt editing and the saved-prompt library: appending a style to the prompt,
    reordering saved prompts by dragging, and the gallery's selection set. */
module Library {
  import opened Wrappers
  import opened Text
  import opened Assets

  // ---------------------------------------------------------------------
  // Styles

  /** Punctuation after which a style is joined with a bare space: `,` `，` `.` `。`. */
  predicate EndsClause(c: char)
  {
    c == ',' || c == '，' || c == '.' || c == '。'
  }

  /** `selectStyle`: the style replaces an empty (or all-white) prompt; otherwise it is
      appended to the trimmed prompt, after a space when the prompt already ends with a
      clause mark and after `, ` when it does not. */
  function AppendStyle(prompt: string, style: string): (r: string)
    ensures Trim(prompt) == "" ==> r == style
    ensures |r| >= |Trim(prompt)| + |style| && r[|r| - |style|..] == style
    ensures StartsWith(r, Trim(prompt))
    ensures Trim(prompt) != "" ==>
              var t := Trim(prompt);
              r[|t|..|r| - |style|] == (if EndsClause(t[|t| - 1]) then " " else ", ")
  {
    var t := Trim(prompt);
    if t == "" then
      assert style[|style| - |style|..] == style;
      style
    else
      var sep := if EndsClause(t[|t| - 1]) then " " else ", ";
      var r := t + sep + style;
      assert r[..|t|] == t && r[|t|..|r| - |style|] == sep && r[|r| - |style|..] == style;
      r
  }

  /** With a style that neither starts nor ends with white space, the new prompt has no
      white margins either: the next pick trims nothing away from it. */
  lemma AppendStyleTrimStable(prompt: string, style: string)
    requires style != [] && !IsWhite(style[0]) && !IsWhite(style[|style| - 1])
    ensures Trim(AppendStyle(prompt, style)) == AppendStyle(prompt, style)
  {
    var r := AppendStyle(prompt, style);
    var t := Trim(prompt);
    assert r[|r| - 1] == style[|style| - 1] by {
      assert r[|r| - |style|..][|style| - 1] == style[|style| - 1];
    }
    if t != "" {
      assert r[0] == t[0] by {
        assert r[..|t|][0] == t[0];
      }
    }
    TrimUnchanged(r);
  }

  /** Two styles picked in a row on an empty prompt are joined with `, ` (the first
      style ends in a letter, not a clause mark). */
  lemma TwoStylesJoined(prompt: string, s1: string, s2: string)
    requires Trim(prompt) == ""
    requires s1 != [] && !IsWhite(s1[0]) && !IsWhite(s1[|s1| - 1]) && !EndsClause(s1[|s1| - 1])
    ensures AppendStyle(AppendStyle(prompt, s1), s2) == s1 + ", " + s2
  {
    TrimUnchanged(s1);
  }

  // ---------------------------------------------------------------------
  // Drag reordering

  function RemoveAt<T>(s: seq<T>, i: nat): (r: seq<T>)
    requires i < |s|
    ensures |r| == |s| - 1
  {
    s[..i] + s[i + 1..]
  }

  function InsertAt<T>(s: seq<T>, i: nat, x: T): (r: seq<T>)
    requires i <= |s|
    ensures |r| == |s| + 1 && r[i] == x
  {
    s[..i] + [x] + s[i..]
  }

  /** `items.splice(from, 1); items.splice(to, 0, dragged)`. */
  function Moved<T>(s: seq<T>, from: nat, to: nat): (r: seq<T>)
    requires from < |s| && to < |s|
    ensures |r| == |s|
  {
    InsertAt(RemoveAt(s, from), to, s[from])
  }

  /** Where each element ends up: the dragged one at `to`, the ones between the two
      positions shifted one place towards `from`, the rest where they were. */
  lemma MovedAt<T>(s: seq<T>, from: nat, to: nat, k: nat)
    requires from < |s| && to < |s| && k < |s|
    ensures Moved(s, from, to)[k] ==
              if k == to then s[from]
              else if from < to && from <= k < to then s[k + 1]
              else if to < from && to < k <= from then s[k - 1]
              else s[k]
  {
    var rest := RemoveAt(s, from);
    var r := Moved(s, from, to);
    assert forall j :: 0 <= j < |rest| ==> rest[j] == if j < from then s[j] else s[j + 1];
    assert forall j :: 0 <= j < |r| ==> r[j] == if j < to then rest[j] else if j == to then s[from] else rest[j - 1];
  }

  /** A move is a permutation that puts the dragged item at the target. */
  lemma MovedIsPermutation<T>(s: seq<T>, from: nat, to: nat)
    requires from < |s| && to < |s|
    ensures multiset(Moved(s, from, to)) == multiset(s)
    ensures Moved(s, from, to)[to] == s[from]
  {
    var rest := RemoveAt(s, from);
    var x := s[from];
    assert s == s[..from] + [x] + s[from + 1..];
    assert multiset(s) == multiset(s[..from]) + multiset{x} + multiset(s[from + 1..]);
    assert multiset(rest) == multiset(s[..from]) + multiset(s[from + 1..]);
    assert rest == rest[..to] + rest[to..];
    assert multiset(Moved(s, from, to)) == multiset(rest[..to]) + multiset{x} + multiset(rest[to..]);
    assert multiset(rest) == multiset(rest[..to]) + multiset(rest[to..]);
    assert multiset(Moved(s, from, to)) == multiset(rest) + multiset{x};
  }

  /** Dragging the item back to where it came from undoes the move. */
  lemma MoveBack<T>(s: seq<T>, from: nat, to: nat)
    requires from < |s| && to < |s|
    ensures Moved(Moved(s, from, to), to, from) == s
  {
    var m := Moved(s, from, to);
    var rest := RemoveAt(s, from);
    assert RemoveAt(m, to) == rest;
    assert m[to] == s[from];
    assert InsertAt(rest, from, s[from]) == s;
  }

  /** Dropping on the item's own place changes nothing. */
  lemma MoveInPlaceIsIdentity<T>(s: seq<T>, i: nat)
    requires i < |s|
    ensures Moved(s, i, i) == s
  {
    assert InsertAt(RemoveAt(s, i), i, s[i]) == s;
  }

  /** The two `splice` calls performed on an array: the items between the two positions
      shift by one and the dragged item is written at the target. */
  method MoveWithin<T>(a: array<T>, from: nat, to: nat)
    requires from < a.Length && to < a.Length
    modifies a
    ensures a[..] == Moved(old(a[..]), from, to)
  {
    var x := a[from];
    if from < to {
      var i := from;
      while i < to
        invariant from <= i <= to
        invariant forall k :: 0 <= k < a.Length ==> a[k] == (if from <= k < i then old(a[k + 1]) else old(a[k]))
      {
        a[i] := a[i + 1];
        i := i + 1;
      }
    } else {
      var i := from;
      while i > to
        invariant to <= i <= from
        invariant forall k :: 0 <= k < a.Length ==> a[k] == (if i < k <= from then old(a[k - 1]) else old(a[k]))
      {
        a[i] := a[i - 1];
        i := i - 1;
      }
    }
    a[to] := x;
    forall k | 0 <= k < a.Length ensures a[k] == Moved(old(a[..]), from, to)[k] {
      MovedAt(old(a[..]), from, to, k);
    }
  }

  datatype SavedPrompt = SavedPrompt(id: string, text: string)

  /** The saved prompts, the drag in progress, and what was last written to local storage. */
  class PromptLibrary {
    var prompts: seq<SavedPrompt>
    var dragged: Option<nat>
    /** Whether a saved prompt is being edited (dragging is then disabled). */
    var editing: bool
    var saved: seq<SavedPrompt>

    constructor (prompts: seq<SavedPrompt>)
      ensures this.prompts == prompts && saved == prompts && dragged.None? && !editing
    {
      this.prompts := prompts;
      this.saved := prompts;
      dragged := None;
      editing := false;
    }

    /** `handleDragStart`. */
    method DragStart(idx: nat)
      modifies this
      ensures prompts == old(prompts) && saved == old(saved) && editing == old(editing)
      ensures dragged == if old(editing) then old(dragged) else Some(idx)
    {
      if !editing {
        dragged := Some(idx);
      }
    }

    /** `handleDragOver` on the item at `idx`: move the dragged item there and follow it. */
    method DragOver(idx: nat)
      requires idx < |prompts| && (dragged.Some? ==> dragged.value < |prompts|)
      modifies this
      ensures editing == old(editing) && saved == old(saved)
      ensures old(editing) || old(dragged).None? || old(dragged) == Some(idx) ==>
                prompts == old(prompts) && dragged == old(dragged)
      ensures !old(editing) && old(dragged).Some? && old(dragged) != Some(idx) ==>
                prompts == Moved(old(prompts), old(dragged).value, idx) && dragged == Some(idx)
      ensures multiset(prompts) == multiset(old(prompts))
    {
      if editing || dragged.None? || dragged == Some(idx) {
        return;
      }
      var from := dragged.value;
      var ps := prompts;
      var items := new SavedPrompt[|ps|](i requires 0 <= i < |ps| => ps[i]);
      assert items[..] == ps;
      MoveWithin(items, from, idx);
      MovedIsPermutation(ps, from, idx);
      prompts := items[..];
      dragged := Some(idx);
    }

    /** `handleDragEnd`: the drag ends and the current order is saved. */
    method DragEnd()
      modifies this
      ensures dragged.None? && saved == prompts && prompts == old(prompts) && editing == old(editing)
    {
      dragged := None;
      saved := prompts;
    }
  }

  // ---------------------------------------------------------------------
  // Selection

  /** `toggleAssetSelection`. */
  function Toggle(sel: set<string>, id: string): (r: set<string>)
    ensures id in r <==> id !in sel
    ensures forall x :: x != id ==> (x in r <==> x in sel)
  {
    if id in sel then sel - {id} else sel + {id}
  }

  lemma ToggleTwice(sel: set<string>, id: string)
    ensures Toggle(Toggle(sel, id), id) == sel
  {
  }

  /** `handleSelectAll`: clear the selection when its size equals the number of assets,
      select every asset otherwise. */
  function SelectAll(sel: set<string>, shown: seq<Asset>): set<string>
  {
    if |sel| == |shown| then {} else Ids(shown)
  }

  lemma {:induction false} IdsCount(s: seq<Asset>)
    requires DistinctIds(s)
    ensures |Ids(s)| == |s|
  {
    if s != [] {
      var rest := s[1..];
      assert DistinctIds(rest) by {
        forall i, j | 0 <= i < j < |rest| ensures rest[i].id != rest[j].id {
          assert rest[i] == s[i + 1] && rest[j] == s[j + 1];
        }
      }
      IdsCount(rest);
      IdsCons(s);
      assert s[0].id !in Ids(rest) by {
        forall a | a in rest ensures a.id != s[0].id {
          var k :| 0 <= k < |rest| && rest[k] == a;
          assert s[k + 1] == a;
        }
      }
    }
  }

  lemma IdsCons(s: seq<Asset>)
    requires s != []
    ensures Ids(s) == {s[0].id} + Ids(s[1..])
  {
    assert forall a :: a in s <==> a == s[0] || a in s[1..] by {
      assert s == [s[0]] + s[1..];
    }
  }

  lemma SubsetSameSize(a: set<string>, b: set<string>)
    requires a <= b && |a| == |b|
    ensures a == b
  {
    assert b == a + (b - a);
    assert |b| == |a| + |b - a|;
  }

  /** With unique ids and a selection of shown assets only, comparing sizes is the same
      as asking whether everything is selected: select-all clears a full selection and
      otherwise selects every asset. */
  lemma SelectAllToggles(sel: set<string>, shown: seq<Asset>)
    requires DistinctIds(shown) && sel <= Ids(shown)
    ensures sel == Ids(shown) ==> SelectAll(sel, shown) == {}
    ensures sel != Ids(shown) ==> SelectAll(sel, shown) == Ids(shown)
  {
    IdsCount(shown);
    if |sel| == |shown| {
      SubsetSameSize(sel, Ids(shown));
    }
  }

  /** `handleAssetDelete` also drops the id from the selection, so the selection stays
      within the shown assets. */
  lemma DeleteKeepsSelectionShown(sel: set<string>, shown: seq<Asset>, id: string)
    requires sel <= Ids(shown)
    ensures sel - {id} <= Ids(DeleteById(shown, id))
  {
    forall x | x in sel - {id} ensures x in Ids(DeleteById(shown, id)) {
      var a :| a in shown && a.id == x;
      DeleteKeepsOthers(shown, id, a);
    }
  }
}
