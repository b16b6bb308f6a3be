/** The word of an rb_node that holds its parent and, in the two lowest bits,
    its colour. */
module RbWords {

  function ParentOf(w: bv32): bv32 { w & 0xFFFF_FFFC }

  function ColorOf(w: bv32): bv32 { w & 1 }

  predicate IsAligned(p: bv32) { p & 3 == 0 }

  function WithParent(w: bv32, pa: bv32): bv32 { pa | (w & 3) }

  function WithColor(w: bv32, clr: bv32): bv32 { (w & 0xFFFF_FFFE) | (clr & 1) }

  class Header {
    var colorParent: bv32

    /** rb_set_parent keeps the colour, and sets the parent, exactly if the
        address is a multiple of four: a lower bit would be lost from the parent,
        and could turn a red node black. */
    method SetParent(pa: bv32)
      modifies this
      ensures ParentOf(colorParent) == pa <==> IsAligned(pa)
      ensures IsAligned(pa) ==> ColorOf(colorParent) == old(ColorOf(colorParent))
      ensures ColorOf(colorParent) == old(ColorOf(colorParent)) | ColorOf(pa)
    {
      hide ParentOf, ColorOf, IsAligned, WithParent;
      Combined(colorParent, pa);
      colorParent := WithParent(colorParent, pa);
    }

    /** rb_set_color keeps the parent. */
    method SetColor(clr: bv32)
      modifies this
      ensures ParentOf(colorParent) == old(ParentOf(colorParent)) && ColorOf(colorParent) == ColorOf(clr)
    {
      hide ParentOf, ColorOf, WithColor;
      Recolored(colorParent, clr);
      colorParent := WithColor(colorParent, clr);
    }

    /** rb_set_parent_color. */
    method SetParentColor(pa: bv32, clr: bv32)
      modifies this
      ensures ParentOf(colorParent) == pa && ColorOf(colorParent) == ColorOf(clr) <==> IsAligned(pa)
    {
      LowBit(pa, clr);
      colorParent := pa | (clr & 1);
    }
  }

  lemma Combined(w: bv32, pa: bv32)
    ensures ParentOf(WithParent(w, pa)) == pa <==> IsAligned(pa)
    ensures ColorOf(WithParent(w, pa)) == ColorOf(w) | ColorOf(pa)
    ensures IsAligned(pa) ==> ColorOf(WithParent(w, pa)) == ColorOf(w)
  {
  }

  lemma Recolored(w: bv32, clr: bv32)
    ensures ParentOf(WithColor(w, clr)) == ParentOf(w) && ColorOf(WithColor(w, clr)) == ColorOf(clr)
  {
  }

  lemma LowBit(pa: bv32, clr: bv32)
    ensures ParentOf(pa | (clr & 1)) == pa && ColorOf(pa | (clr & 1)) == ColorOf(clr) <==> IsAligned(pa)
  {
  }
}
