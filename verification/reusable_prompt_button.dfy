/**
 * A toolbar button that reuses an earlier prompt over the current selection: the prompt keeps
 * its text segments and receives selected elements in its entity slots and, when it had
 * targets, as its target.
 */
module ReusablePromptButton {
  import opened Wrappers
  import opened Seqs
  import opened Element
  import opened ComplexPrompts
  import opened StoreObject

  function Piece(e: PromptElement): string {
    match e
    case TextSeg(t) => t
    case EntitySeg(_) => "[]"
  }

  /** The prompt's identifier: its text segments joined, with `[]` for each entity. */
  function Identifier(es: seq<PromptElement>): string {
    if es == [] then "" else Piece(es[0]) + Identifier(es[1..])
  }

  /** A prompt without entity slots is identified by its own text. */
  lemma {:induction false} IdentifierOfTexts(es: seq<PromptElement>)
    requires NoEntities(es)
    ensures Identifier(es) == ToString(es)
  {
    if es != [] {
      IdentifierOfTexts(es[1..]);
    }
  }

  /** The same texts at the same positions, and entity slots at the same positions. */
  predicate SameShape(a: seq<PromptElement>, b: seq<PromptElement>) {
    |a| == |b|
    && (forall i :: 0 <= i < |a| ==> (a[i].TextSeg? <==> b[i].TextSeg?))
    && (forall i :: 0 <= i < |a| && a[i].TextSeg? ==> a[i] == b[i])
  }

  /** The identifier sees only the shape of a prompt, never the entities in its slots. */
  lemma {:induction false} SameShapeSameIdentifier(a: seq<PromptElement>, b: seq<PromptElement>)
    requires SameShape(a, b)
    ensures Identifier(a) == Identifier(b)
    decreases |a|
  {
    if a != [] {
      assert Piece(a[0]) == Piece(b[0]);
      SameShapeSameIdentifier(a[1..], b[1..]);
    }
  }

  /** The number of selected elements the prompt needs: one per entity slot, plus one target if it had any. */
  function Required(p: ComplexPrompt): nat {
    |Entities(p.promptElements)| + (if |p.targets| > 0 then 1 else 0)
  }

  lemma EntitiesCons(x: PromptElement, rest: seq<PromptElement>)
    ensures Entities([x] + rest) == (if x.EntitySeg? then [x.entity] else []) + Entities(rest)
  {
    assert ([x] + rest)[1..] == rest;
  }

  /**
   * The segments with the `k`-th entity slot given the `k`-th selected element; text segments
   * are kept.
   */
  function Rebound(segs: seq<PromptElement>, sel: seq<EntityElement>): (r: seq<PromptElement>)
    requires |sel| >= |Entities(segs)|
    ensures SameShape(segs, r)
    decreases |segs|
  {
    if segs == [] then []
    else
      var head := if segs[0].EntitySeg? then EntitySeg(sel[0]) else segs[0];
      var rest := Rebound(segs[1..], if segs[0].EntitySeg? then sel[1..] else sel);
      assert forall i :: 1 <= i < |segs| ==> ([head] + rest)[i] == rest[i - 1];
      [head] + rest
  }

  /** The slots receive the first selected elements, in order, one each. */
  lemma {:induction false} ReboundEntities(segs: seq<PromptElement>, sel: seq<EntityElement>)
    requires |sel| >= |Entities(segs)|
    ensures Entities(Rebound(segs, sel)) == sel[..|Entities(segs)|]
    decreases |segs|
  {
    if segs != [] {
      if segs[0].EntitySeg? {
        var rest := Rebound(segs[1..], sel[1..]);
        ReboundEntities(segs[1..], sel[1..]);
        EntitiesCons(EntitySeg(sel[0]), rest);
        assert sel[..|Entities(segs)|] == [sel[0]] + sel[1..][..|Entities(segs[1..])|];
      } else {
        ReboundEntities(segs[1..], sel);
        EntitiesCons(segs[0], Rebound(segs[1..], sel));
      }
    }
  }

  /** One step of the rebinding: the first segment, then the rest against the remaining selection. */
  lemma ReboundUnfold(segs: seq<PromptElement>, sel: seq<EntityElement>)
    requires segs != [] && |sel| >= |Entities(segs)|
    ensures segs[0].EntitySeg? ==> |sel| > 0 && |Entities(segs)| == 1 + |Entities(segs[1..])|
    ensures segs[0].EntitySeg? ==> Rebound(segs, sel) == [EntitySeg(sel[0])] + Rebound(segs[1..], sel[1..])
    ensures segs[0].TextSeg? ==> |Entities(segs)| == |Entities(segs[1..])|
    ensures segs[0].TextSeg? ==> Rebound(segs, sel) == [segs[0]] + Rebound(segs[1..], sel)
  {
  }

  /** One round of the rebinding loop: segment `i` against the selection from `slot` on. */
  lemma ReboundAdvance(segs: seq<PromptElement>, sel: seq<EntityElement>, i: nat, slot: nat)
    requires i < |segs| && slot + |Entities(segs[i..])| == |Entities(segs)| <= |sel|
    ensures segs[i].EntitySeg? ==>
      && slot < |sel| && slot + 1 + |Entities(segs[i + 1..])| == |Entities(segs)|
      && Rebound(segs[i..], sel[slot..]) == [EntitySeg(sel[slot])] + Rebound(segs[i + 1..], sel[slot + 1..])
    ensures segs[i].TextSeg? ==>
      && slot + |Entities(segs[i + 1..])| == |Entities(segs)|
      && Rebound(segs[i..], sel[slot..]) == [segs[i]] + Rebound(segs[i + 1..], sel[slot..])
  {
    var rest, tail := segs[i..], sel[slot..];
    assert rest[0] == segs[i] && rest[1..] == segs[i + 1..];
    ReboundUnfold(rest, tail);
    if segs[i].EntitySeg? {
      assert tail[0] == sel[slot] && tail[1..] == sel[slot + 1..];
    }
  }

  /**
   * `selectedElementsToPromptElements`: the segments in order, each entity slot taking the
   * next selected element.
   */
  method SelectedToPromptElements(segs: seq<PromptElement>, sel: seq<EntityElement>)
    returns (r: seq<PromptElement>)
    requires |sel| >= |Entities(segs)|
    ensures r == Rebound(segs, sel)
  {
    r := [];
    var slot := 0;
    var i := 0;
    while i < |segs|
      invariant 0 <= i <= |segs|
      invariant slot + |Entities(segs[i..])| == |Entities(segs)| <= |sel|
      invariant r + Rebound(segs[i..], sel[slot..]) == Rebound(segs, sel)
    {
      ReboundAdvance(segs, sel, i, slot);
      if segs[i].EntitySeg? {
        var x := EntitySeg(sel[slot]);
        Assoc(r, [x], Rebound(segs[i + 1..], sel[slot + 1..]));
        r := r + [x];
        slot := slot + 1;
      } else {
        Assoc(r, [segs[i]], Rebound(segs[i + 1..], sel[slot..]));
        r := r + [segs[i]];
      }
      i := i + 1;
    }
    assert segs[i..] == [];
  }

  /**
   * `getPromptElementsAndSelection`: the segments to send and what stays selected (the
   * prompt's target). A prompt with only targets keeps the whole selection as its targets; a
   * prompt without targets puts the whole selection into its slots; otherwise the first
   * selected element is the target and the others fill the slots.
   */
  function Arrange(p: ComplexPrompt, sel: seq<EntityElement>): (r: (seq<PromptElement>, seq<EntityElement>))
    requires |sel| >= Required(p)
    ensures SameShape(p.promptElements, r.0)
    ensures Identifier(r.0) == Identifier(p.promptElements)
    ensures |p.promptElements| == 0 && |p.targets| > 0 ==> r == (p.promptElements, sel)
    ensures |p.promptElements| > 0 && |p.targets| == 0 ==> r.1 == []
    ensures |p.promptElements| > 0 && |p.targets| > 0 ==> r.1 == [sel[0]]
    ensures |p.promptElements| > 0 ==> r.1 + Entities(r.0) == sel[..Required(p)]
  {
    var segs := p.promptElements;
    if |segs| == 0 && |p.targets| > 0 then (segs, sel)
    else if |segs| > 0 && |p.targets| == 0 then
      var r := Rebound(segs, sel);
      SameShapeSameIdentifier(segs, r);
      ReboundEntities(segs, sel);
      assert [] + Entities(r) == sel[..Required(p)];
      (r, [])
    else
      var first, others := if |sel| > 0 then sel[..1] else [], if |sel| > 0 then sel[1..] else [];
      var r := Rebound(segs, others);
      SameShapeSameIdentifier(segs, r);
      ReboundEntities(segs, others);
      assert |p.targets| > 0 ==> first == [sel[0]];
      assert |segs| > 0 ==> sel[..Required(p)] == first + others[..|Entities(segs)|];
      (r, first)
  }

  /**
   * The button's click: a second click leaves the tool; with enough elements selected the
   * prompt is sent at once (the returned segments and selection) and the tool is left;
   * otherwise the tool is selected and the multiple-selection mode entered.
   */
  method OnClick(store: Store, p: ComplexPrompt) returns (sent: Option<(seq<PromptElement>, seq<EntityElement>)>)
    modifies store
    ensures old(store.selectedTool) == Identifier(p.promptElements) ==>
      sent.None? && store.State() == old(store.State()).(selectedTool := "", inMultipleSelectionMode := false)
    ensures old(store.selectedTool) != Identifier(p.promptElements) && |old(store.selectedElements)| >= Required(p) ==>
      sent == Some(Arrange(p, old(store.selectedElements)))
      && store.State() == old(store.State()).(selectedTool := "", inMultipleSelectionMode := false)
    ensures old(store.selectedTool) != Identifier(p.promptElements) && |old(store.selectedElements)| < Required(p) ==>
      sent.None?
      && store.State() == old(store.State()).(selectedTool := Identifier(p.promptElements), inMultipleSelectionMode := true)
  {
    var id := Identifier(p.promptElements);
    if store.selectedTool == id {
      store.SetSelectedTool("");
      return None;
    }
    if |store.selectedElements| >= Required(p) {
      sent := Some(Arrange(p, store.selectedElements));
      store.SetSelectedTool("");
    } else {
      sent := None;
      store.SetSelectedTool(id);
      store.SetInMultipleSelectionMode(true);
    }
  }

  /**
   * The effect run when the selection changes: once the button's tool is selected and enough
   * elements are selected, the prompt is sent and the selection emptied.
   */
  method OnSelectionChange(store: Store, p: ComplexPrompt) returns (sent: Option<(seq<PromptElement>, seq<EntityElement>)>)
    modifies store
    ensures old(store.selectedTool) == Identifier(p.promptElements) && |old(store.selectedElements)| >= Required(p) ==>
      sent == Some(Arrange(p, old(store.selectedElements)))
      && store.State() == old(store.State()).(selectedElements := [])
    ensures !(old(store.selectedTool) == Identifier(p.promptElements) && |old(store.selectedElements)| >= Required(p)) ==>
      sent.None? && store.State() == old(store.State())
  {
    if store.selectedTool == Identifier(p.promptElements) && |store.selectedElements| >= Required(p) {
      sent := Some(Arrange(p, store.selectedElements));
      store.SetSelectedElements([]);
    } else {
      sent := None;
    }
  }
}
