/** ENode.h: union-find nodes whose classes are relabelled eagerly. */
module ENodes {
  import opened Terms

  class ENode {
    const val: Term
    var parent: ENode?
    var eClass: seq<ENode>

    constructor (value: Term)
      ensures val == value && parent == null && eClass == [this]
    {
      val := value;
      parent := null;
      new;
      eClass := [this];
    }

    /** getRepresentative; parent chains have length at most one. */
    function Representative(): (r: ENode)
      reads this, parent
      requires parent != null ==> parent.parent == null
      ensures r.parent == null
    {
      if parent == null then this else parent
    }

    method GetRepresentative() returns (r: ENode)
      requires parent != null ==> parent.parent == null
      ensures r == Representative()
      decreases parent != null
    {
      if parent != null { r := parent.GetRepresentative(); } else { r := this; }
    }

    /** operator+=: absorb the class of e, making this the parent of each member. */
    method Absorb(e: ENode)
      requires parent == null && e.parent == null && e != this
      requires this !in e.eClass && e in e.eClass
      requires |e.eClass| <= |eClass|
      modifies this`eClass, e`eClass, e.eClass`parent
      ensures eClass == old(eClass) + old(e.eClass) && e.eClass == [] && parent == null
      ensures forall x :: x in old(e.eClass) ==> x.parent == this
    {
      var members := e.eClass;
      for i := 0 to |members|
        invariant eClass == old(eClass) + members[..i] && e.eClass == members && parent == null
        invariant forall j :: 0 <= j < i ==> members[j].parent == this
        modifies this`eClass, members`parent
      {
        eClass := eClass + [members[i]];
        members[i].parent := this;
      }
      assert members[..|members|] == members;
      e.eClass := [];
    }
  }
}
