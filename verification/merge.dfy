/** The shallow merge used for every state write (`src/utils/merge.ts`). */
module Merging {
  import opened Values

  /** `merge(to, from)`: when both operands are object-typed, a new object holding the
      properties of `to` overwritten by those of `from`; otherwise `from` itself. */
  function Merge(to: Value, from: Value): (r: Value)
    ensures IsObjectTyped(to) && IsObjectTyped(from) ==>
              && r.Obj?
              && r.fields.Keys == Own(to).Keys + Own(from).Keys
              && (forall k :: k in Own(from) ==> Prop(r, k) == Own(from)[k])
              && (forall k :: k in Own(to) && k !in Own(from) ==> Prop(r, k) == Own(to)[k])
    ensures !(IsObjectTyped(to) && IsObjectTyped(from)) ==> r == from
  {
    if IsObjectTyped(to) && IsObjectTyped(from) then Obj(Own(to) + Own(from)) else from
  }

  /** `null` is object-typed but contributes no properties: merging an object with
      `null` on either side gives a copy of the object, and two `null`s give `{}`. */
  lemma MergeWithNull(o: Value)
    requires o.Obj?
    ensures Merge(Null, o) == o
    ensures Merge(o, Null) == o
    ensures Merge(Null, Null) == Obj(map[])
  {
    assert Own(Null) + Own(o) == o.fields;
    assert Own(o) + Own(Null) == o.fields;
  }

  /** Merging the same update a second time changes nothing, except when the first merge
      handed back a bare `null`, which the second merge turns into `{}`. */
  lemma MergeIdempotent(to: Value, from: Value)
    ensures Merge(Merge(to, from), from) == Merge(to, from)
            <==> !(from == Null && !IsObjectTyped(to))
  {
    if from == Null && !IsObjectTyped(to) {
      assert Merge(to, from) == Null;
      assert Merge(Null, Null) == Obj(map[]);
    } else if IsObjectTyped(to) && IsObjectTyped(from) {
      var once := Own(to) + Own(from);
      assert once + Own(from) == once;
    } else if from.Obj? {
      assert from.fields + from.fields == from.fields;
    }
  }
}
