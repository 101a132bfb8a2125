/** The recursion of MapWindow over the children, on any table on which it comes to an end. */
module Cascades {
  import opened WindowTree
  import opened WindowOps
  import opened Viewability

  lemma {:induction false} SameLinksEnds(t: Table, u: Table, w: WindowId, n: nat)
    requires SameLinks(t, u) && Ends(t, w, n)
    ensures Ends(u, w, n)
    decreases n
  {
    if w in t {
      forall c | c in u[w].children ensures Ends(u, c, n - 1) {
        SameLinksEnds(t, u, c, n - 1);
      }
    }
  }

  ghost predicate AllEnd(t: Table, cs: seq<WindowId>, n: nat) {
    forall c :: c in cs ==> Ends(t, c, n)
  }

  lemma SameLinksAllEnd(t: Table, u: Table, cs: seq<WindowId>, n: nat)
    requires SameLinks(t, u) && AllEnd(t, cs, n)
    ensures AllEnd(u, cs, n)
  {
    forall c | c in cs ensures Ends(u, c, n) {
      SameLinksEnds(t, u, c, n);
    }
  }

  function Show(t: Table, c: WindowId): (u: Table)
    ensures SameLinks(t, u)
  {
    if c in t then ShowWaiting(t, c) else t
  }

  /** `promote_unviewable_descendants`, one window after the other; missing ids are passed over. */
  ghost function Cascade(t: Table, id: WindowId, n: nat): (u: Table)
    requires Ends(t, id, n)
    ensures SameLinks(t, u)
    decreases n, 0
  {
    if id in t then CascadeList(t, t[id].children, n - 1) else t
  }

  ghost function CascadeTurn(t: Table, c: WindowId, n: nat): (u: Table)
    requires Ends(t, c, n)
    ensures SameLinks(t, u)
    decreases n, 1
  {
    var shown := Show(t, c);
    SameLinksEnds(t, shown, c, n);
    if c in shown && shown[c].mapState == Viewable then
      SameLinksTransitive(t, shown, Cascade(shown, c, n));
      Cascade(shown, c, n)
    else shown
  }

  ghost function CascadeList(t: Table, cs: seq<WindowId>, n: nat): (u: Table)
    requires AllEnd(t, cs, n)
    ensures SameLinks(t, u)
    decreases n, 2, |cs|
  {
    if cs == [] then t
    else
      assert cs[0] in cs;
      var s := CascadeTurn(t, cs[0], n);
      SameLinksAllEnd(t, s, cs[1..], n);
      SameLinksTransitive(t, s, CascadeList(s, cs[1..], n));
      CascadeList(s, cs[1..], n)
  }

  /** The table afterwards and whether the window was unmapped. */
  ghost function MapCascade(t: Table, id: WindowId, n: nat): (Table, bool)
    requires Ends(t, id, n)
  {
    if id !in t then (t, false)
    else
      var u := Marked(t, id);
      SameLinksEnds(t, u, id, n);
      (if ParentShown(t, id) then Cascade(u, id, n) else u, t[id].mapState == Unmapped)
  }

  /** In a rooted tree the recursion shows exactly the windows reached through mapped ones. */
  lemma {:induction false} CascadeIsPromote(t: Table, id: WindowId, n: nat)
    requires WellFormed(t) && id in t && Ends(t, id, n)
    ensures Cascade(t, id, n) == Promote(t, id)
    decreases n, 0
  {
    var kids := t[id].children;
    PromoteIsUnderChildren(t, id);
    PromoteUnderSame(t, []);
    hide PromoteUnder, Promote, Ends, SameLinks;
    assert kids[0..] == kids && kids[..0] == [];
    RestOfCascade(t, id, 0, n);
  }

  lemma PromoteUnderLinks(t: Table, cs: seq<WindowId>)
    requires WellFormed(t)
    ensures SameLinks(t, PromoteUnder(t, cs))
  {
    PromoteUnderSame(t, cs);
  }

  lemma EndsBelow(t: Table, id: WindowId, i: nat, n: nat)
    requires id in t && Ends(t, id, n) && i <= |t[id].children|
    ensures n > 0 && AllEnd(t, t[id].children[i..], n - 1)
  {
    forall c | c in t[id].children[i..] ensures Ends(t, c, n - 1) {
      assert c in t[id].children;
    }
  }

  lemma CascadeListStep(t: Table, cs: seq<WindowId>, n: nat)
    requires AllEnd(t, cs, n) && cs != []
    ensures Ends(t, cs[0], n) && AllEnd(CascadeTurn(t, cs[0], n), cs[1..], n)
    ensures CascadeList(t, cs, n) == CascadeList(CascadeTurn(t, cs[0], n), cs[1..], n)
  {
    hide CascadeTurn, SameLinks;
    assert cs[0] in cs;
    SameLinksAllEnd(t, CascadeTurn(t, cs[0], n), cs[1..], n);
  }

  lemma CascadeListEnd(t: Table, n: nat)
    ensures AllEnd(t, [], n) && CascadeList(t, [], n) == t
  {
  }

  /** The children from the `i`th on, after the earlier ones. */
  lemma {:induction false} RestOfCascade(t: Table, id: WindowId, i: nat, n: nat)
    requires WellFormed(t) && id in t && Ends(t, id, n) && i <= |t[id].children|
    ensures n > 0 && AllEnd(PromoteUnder(t, t[id].children[..i]), t[id].children[i..], n - 1)
    ensures CascadeList(PromoteUnder(t, t[id].children[..i]), t[id].children[i..], n - 1) == PromoteUnder(t, t[id].children)
    decreases n - 1, 3, |t[id].children| - i
  {
    var kids := t[id].children;
    var s := PromoteUnder(t, kids[..i]);
    EndsBelow(t, id, i, n);
    PromoteUnderLinks(t, kids[..i]);
    SameLinksAllEnd(t, s, kids[i..], n - 1);
    hide PromoteUnder, Promote, WellFormed, SameLinks;
    if i == |kids| {
      assert kids[..i] == kids && kids[i..] == [];
    } else {
      var c := kids[i];
      assert kids[i..][0] == c && kids[i..][1..] == kids[i + 1..];
      assert kids[..i + 1] == kids[..i] + [c];
      PromoteTurn(t, id, i);
      TurnIsPromote(s, c, n - 1);
      RestOfCascade(t, id, i + 1, n);
    }
  }

  lemma {:induction false} TurnIsPromote(s: Table, c: WindowId, n: nat)
    requires c in s && WellFormed(ShowWaiting(s, c)) && Ends(s, c, n)
    ensures CascadeTurn(s, c, n)
         == var shown := ShowWaiting(s, c);
            if shown[c].mapState == Viewable then Promote(shown, c) else shown
    decreases n, 1
  {
    var shown := ShowWaiting(s, c);
    SameLinksEnds(s, shown, c, n);
    hide Promote, Ends, WellFormed;
    if shown[c].mapState == Viewable {
      CascadeIsPromote(shown, c, n);
    }
  }

  lemma MapCascadeIsMap(t: Table, id: WindowId, n: nat)
    requires WellFormed(t) && Ends(t, id, n)
    ensures MapCascade(t, id, n) == MapWindow(t, id)
  {
    if id in t {
      var u := Marked(t, id);
      SameLinksWellFormed(t, u);
      SameLinksEnds(t, u, id, n);
      CascadeIsPromote(u, id, n);
    }
  }

  /** In a rooted tree the recursion ends from every window. */
  lemma TreeEndsEverywhere(t: Table, id: WindowId)
    requires WellFormed(t)
    ensures Ends(t, id, |t|)
  {
    if id in t {
      assert Reaches(t, id);
      TreeEnds(t, id, |t|);
    }
  }
}
