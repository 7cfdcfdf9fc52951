/**
 * The inline edit form shown on a node: which attributes it edits, how its
 * fields are filled from the node, and the single-attribute update each
 * keystroke sends to the canvas.
 */
module DynamicWatch {
  import opened Family

  /** The attributes the form edits, in display order.  Position and id are not among them. */
  const EditableKeys: seq<Key> := [Name, BirthDate, Location, Biography]

  /** `node[key] ?? ""`: the node's value for a field, or the empty string. */
  function InitialValue(node: Person, k: Key): Value
  {
    if k in node.fields then node.fields[k] else Str("")
  }

  /** The form contents for a node: one entry per editable attribute. */
  function FormOf(node: Person): (form: map<Key, Value>)
    ensures form.Keys == set k | k in EditableKeys
    ensures forall k :: k in form ==> form[k] == InitialValue(node, k)
  {
    map k | k in EditableKeys :: InitialValue(node, k)
  }

  /** `{ ...prev, [key]: value }` */
  function WithEntry(prev: map<Key, Value>, key: Key, value: string): (r: map<Key, Value>)
    ensures r.Keys == prev.Keys + {key}
    ensures r[key] == Str(value)
    ensures forall k :: k in prev && k != key ==> r[k] == prev[k]
  {
    prev[key := Str(value)]
  }

  /** `{ [key]: value }`: the partial update sent to the canvas. */
  function Patch(key: Key, value: string): (p: map<Key, Value>)
    ensures p.Keys == {key} && p[key] == Str(value)
  {
    map[key := Str(value)]
  }

  /**
   * The initialising effect: an empty object filled field by field, in
   * the order of the editable keys.
   */
  method InitialForm(node: Person) returns (form: map<Key, Value>)
    ensures form == FormOf(node)
  {
    form := map[];
    for i := 0 to |EditableKeys|
      invariant form.Keys == set j | 0 <= j < i :: EditableKeys[j]
      invariant forall k :: k in form ==> form[k] == InitialValue(node, k)
    {
      var key := EditableKeys[i];
      form := form[key := if key in node.fields then node.fields[key] else Str("")];
    }
    assert form.Keys == FormOf(node).Keys by {
      forall k | k in EditableKeys ensures k in form.Keys {
        var j :| 0 <= j < |EditableKeys| && EditableKeys[j] == k;
      }
    }
  }

  /**
   * Once the canvas has merged a keystroke's patch into the node, the
   * form the node would be initialised with is the form the keystroke
   * produced: form and node stay in step.
   */
  lemma FormTracksEdits(node: Person, key: Key, value: string)
    requires key in EditableKeys
    ensures FormOf(Merge(node, Patch(key, value))) == WithEntry(FormOf(node), key, value)
  {
    var merged := Merge(node, Patch(key, value));
    var lhs, rhs := FormOf(merged), WithEntry(FormOf(node), key, value);
    forall k | k in lhs ensures lhs[k] == rhs[k] {
      if k != key {
        assert k !in Patch(key, value);
      }
    }
  }

  /**
   * The patch reaches the node being edited: after `handleChangeNode`
   * the node found under `id` is the old one with the patch merged in.
   */
  lemma {:induction false} PatchReachesNode(nodes: seq<Person>, id: int, key: Key, value: string)
    requires Find(nodes, id).Some?
    ensures Find(ApplyEdit(nodes, id, Patch(key, value)), id) == Some(Merge(Find(nodes, id).value, Patch(key, value)))
    decreases |nodes|
  {
    var patch := Patch(key, value);
    var edited := ApplyEdit(nodes, id, patch);
    if nodes[0].id != id {
      assert edited[0].id != id;
      assert edited[1..] == ApplyEdit(nodes[1..], id, patch);
      PatchReachesNode(nodes[1..], id, key, value);
    }
  }

  /** The form of one node: its current fields and the edits it sends. */
  class Watch {
    var formData: map<Key, Value>

    constructor ()
      ensures formData == map[]
    {
      formData := map[];
    }

    /** The effect run whenever the node changes: refill every field. */
    method Sync(node: Person)
      modifies this
      ensures formData == FormOf(node)
    {
      formData := InitialForm(node);
    }

    /**
     * `handleChange`: store the typed value under its key, leave every
     * other field, and return the single-key update for the canvas.
     */
    method HandleChange(key: Key, value: string) returns (update: map<Key, Value>)
      requires key in EditableKeys
      modifies this
      ensures formData == WithEntry(old(formData), key, value)
      ensures update == Patch(key, value)
    {
      formData := formData[key := Str(value)];
      update := map[key := Str(value)];
    }
  }
}
