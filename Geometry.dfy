/** rfb::Rect: a rectangle given by its top-left corner (inclusive) and
    bottom-right corner (exclusive). Rect.h is not part of this model; its
    members follow the usual rfb definitions. */
module Geometry {
  datatype Rect = Rect(tlx: int, tly: int, brx: int, bry: int)
  {
    function Width(): int { brx - tlx }
    function Height(): int { bry - tly }
    predicate Valid() { tlx <= brx && tly <= bry }

    /** is_empty(): no pixel inside. */
    predicate IsEmpty() { brx <= tlx || bry <= tly }

    /** area(): zero for an empty rectangle, width times height otherwise. */
    function Area(): int { if IsEmpty() then 0 else Width() * Height() }

    /** The pixel (x, y) lies inside. */
    predicate Contains(x: int, y: int) { tlx <= x < brx && tly <= y < bry }

    /** enclosed_by(r) */
    predicate EnclosedBy(r: Rect)
    {
      tlx >= r.tlx && tly >= r.tly && brx <= r.brx && bry <= r.bry
    }

    /** union_boundary(r): the bounding box of both, an empty operand
        giving the other one. */
    function UnionBoundary(r: Rect): Rect
    {
      if r.IsEmpty() then this
      else if IsEmpty() then r
      else Rect(if tlx < r.tlx then tlx else r.tlx, if tly < r.tly then tly else r.tly,
                if brx > r.brx then brx else r.brx, if bry > r.bry then bry else r.bry)
    }
  }
}
