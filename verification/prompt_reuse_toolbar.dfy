/**
 * The toolbar of reusable prompts: one button per prompt identifier found among the reusable
 * prompts of the undo history, for the earliest such prompt, in order of first appearance.
 */
module PromptReuseToolbar {
  import opened Prompts
  import opened ModelStore
  import opened ReusablePromptButton

  /**
   * The properties every object literal inherits from `Object.prototype`. Looking one of them up
   * in the empty dictionary gives a value that is not `undefined`, so a prompt whose identifier
   * is one of these names is never added.
   */
  predicate Inherited(key: string) {
    key in {"constructor", "hasOwnProperty", "isPrototypeOf", "propertyIsEnumerable",
            "toLocaleString", "toString", "valueOf", "__proto__", "__defineGetter__",
            "__defineSetter__", "__lookupGetter__", "__lookupSetter__"}
  }

  /** A history entry whose prompt is reusable and has identifier `key`, a name the dictionary can hold. */
  predicate ReusableWith(h: Snapshot, key: string) {
    h.prompt.base.isReusable && Identifier(h.prompt.base.promptElements) == key && !Inherited(key)
  }

  /** The first entry at or after `from` that is reusable with identifier `key`, or -1. */
  function FirstWith(history: seq<Snapshot>, key: string, from: nat): (r: int)
    requires from <= |history|
    ensures r == -1 || from <= r < |history|
    ensures r == -1 ==> forall j :: from <= j < |history| ==> !ReusableWith(history[j], key)
    ensures r != -1 ==> ReusableWith(history[r], key)
    ensures r != -1 ==> forall j :: from <= j < r ==> !ReusableWith(history[j], key)
    decreases |history| - from
  {
    if from == |history| then -1
    else if ReusableWith(history[from], key) then from
    else FirstWith(history, key, from + 1)
  }

  /** What the scan has built after the first `i` entries (the loop's invariant). */
  ghost predicate Scanned(history: seq<Snapshot>, i: nat, keys: seq<string>, prompts: map<string, Prompt>)
    requires i <= |history|
  {
    (forall k :: k in prompts <==> 0 <= FirstWith(history, k, 0) < i)
    && (forall k :: k in prompts ==> prompts[k] == history[FirstWith(history, k, 0)].prompt)
    && (forall k :: k in keys <==> k in prompts)
    && (forall a, b :: 0 <= a < b < |keys| ==> FirstWith(history, keys[a], 0) < FirstWith(history, keys[b], 0))
  }

  /** An entry that is not reusable, or whose identifier is already there, adds nothing. */
  lemma ScanSkips(history: seq<Snapshot>, i: nat, keys: seq<string>, prompts: map<string, Prompt>)
    requires i < |history| && Scanned(history, i, keys, prompts)
    requires history[i].prompt.base.isReusable ==>
      var key := Identifier(history[i].prompt.base.promptElements); Inherited(key) || key in prompts
    ensures Scanned(history, i + 1, keys, prompts)
  {
    forall k ensures k in prompts <==> 0 <= FirstWith(history, k, 0) < i + 1 {
      var first := FirstWith(history, k, 0);
      assert first != -1 ==> ReusableWith(history[first], k);
    }
  }

  /** The first reusable entry with a new identifier is added, at the end of the keys. */
  lemma ScanAdds(history: seq<Snapshot>, i: nat, keys: seq<string>, prompts: map<string, Prompt>)
    requires i < |history| && Scanned(history, i, keys, prompts)
    requires history[i].prompt.base.isReusable
    requires Identifier(history[i].prompt.base.promptElements) !in prompts
    requires !Inherited(Identifier(history[i].prompt.base.promptElements))
    ensures var key := Identifier(history[i].prompt.base.promptElements);
      Scanned(history, i + 1, keys + [key], prompts[key := history[i].prompt])
  {
    var key := Identifier(history[i].prompt.base.promptElements);
    assert ReusableWith(history[i], key);
    assert FirstWith(history, key, 0) == i;
    var keys', prompts' := keys + [key], prompts[key := history[i].prompt];
    forall k ensures k in prompts' <==> 0 <= FirstWith(history, k, 0) < i + 1 {
      if FirstWith(history, k, 0) == i {
        assert ReusableWith(history[i], k);
      }
    }
    forall a, b | 0 <= a < b < |keys'| ensures FirstWith(history, keys'[a], 0) < FirstWith(history, keys'[b], 0) {
      if b == |keys| {
        assert keys'[a] == keys[a] && keys[a] in prompts;
      }
    }
  }

  /**
   * The history scan: each reusable entry's identifier maps to the entry's prompt unless it is
   * already there or is inherited from `Object.prototype`. Returned as the dictionary and its
   * keys in insertion order, which is the order of the buttons.
   */
  method ReusablePrompts(history: seq<Snapshot>) returns (keys: seq<string>, prompts: map<string, Prompt>)
    ensures forall k :: k in prompts <==> FirstWith(history, k, 0) != -1
    ensures forall k :: k in prompts ==> prompts[k] == history[FirstWith(history, k, 0)].prompt
    ensures forall j :: 0 <= j < |history| && history[j].prompt.base.isReusable ==>
      var key := Identifier(history[j].prompt.base.promptElements); Inherited(key) || key in prompts
    ensures forall k :: Inherited(k) ==> k !in prompts
    ensures forall k :: k in keys <==> k in prompts
    ensures forall a, b :: 0 <= a < b < |keys| ==> FirstWith(history, keys[a], 0) < FirstWith(history, keys[b], 0)
  {
    keys, prompts := [], map[];
    var i := 0;
    while i < |history|
      invariant 0 <= i <= |history|
      invariant Scanned(history, i, keys, prompts)
    {
      var h := history[i];
      var key := Identifier(h.prompt.base.promptElements);
      if h.prompt.base.isReusable && !Inherited(key) && key !in prompts {
        ScanAdds(history, i, keys, prompts);
        prompts := prompts[key := h.prompt];
        keys := keys + [key];
      } else {
        ScanSkips(history, i, keys, prompts);
      }
      i := i + 1;
    }
    forall j | 0 <= j < |history| && history[j].prompt.base.isReusable
      ensures var key := Identifier(history[j].prompt.base.promptElements); Inherited(key) || key in prompts
    {
      var key := Identifier(history[j].prompt.base.promptElements);
      if !Inherited(key) {
        assert ReusableWith(history[j], key);
      }
    }
  }
}
