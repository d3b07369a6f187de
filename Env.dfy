/**
 * Environments: frames of name bindings with a link to an enclosing
 * frame, kept in the heap so that every holder of a frame sees the same
 * bindings.  The Go definitions (`NewEnvironment`,
 * `NewEnclosedEnvironment`, `Get`, `Set`) are not part of this model; this
 * module states the behaviour the evaluators rely on: `Set` writes the
 * given frame, `Get` looks in the given frame and then in its enclosing
 * frames, innermost first.
 */
module Env {
  import opened Common
  import opened Objects

  predicate IsFrame(h: Heap, f: Ref)
  {
    f < |h.cells| && h.cells[f].FrameCell?
  }

  /** `NewEnclosedEnvironment(outer)` (and `NewEnvironment()` with no outer frame). */
  function NewEnclosed(h: Heap, outer: Option<Ref>): (r: (Ref, Heap))
    ensures IsFrame(r.1, r.0) && r.0 == |h.cells|
    ensures r.1.cells[r.0] == FrameCell(map[], outer)
    ensures |r.1.cells| == |h.cells| + 1 && r.1.cells[..|h.cells|] == h.cells
  {
    Alloc(h, FrameCell(map[], outer))
  }

  /**
   * `env.Get(name)`: the binding in frame `f`, else in its enclosing
   * frames.  A frame is always allocated after the frame it encloses
   * (`Nested`, which `NewEnclosed` and `Set` keep), so the walk only moves
   * to smaller references and the `o < f` guard never stops it early
   * (`GetWalksOut`).  That the evaluators keep `Nested` through a whole
   * evaluation is not proved here.
   */
  function Get(h: Heap, f: Ref, name: string): Option<Value>
    decreases f
  {
    if !IsFrame(h, f) then None
    else
      var c := h.cells[f];
      if name in c.vars then Some(c.vars[name])
      else match c.outer
        case Some(o) => if o < f then Get(h, o, name) else None
        case None => None
  }

  /** Every frame's enclosing frame has a smaller reference. */
  ghost predicate Nested(h: Heap)
  {
    forall f: nat :: IsFrame(h, f) && h.cells[f].outer.Some? ==> h.cells[f].outer.value < f
  }

  /** In a nested heap, a name not bound in a frame is looked up in its enclosing frame. */
  lemma GetWalksOut(h: Heap, f: Ref, name: string)
    requires Nested(h) && IsFrame(h, f) && name !in h.cells[f].vars && h.cells[f].outer.Some?
    ensures Get(h, f, name) == Get(h, h.cells[f].outer.value, name)
  {
  }

  /** A new frame enclosing an existing one keeps the heap nested. */
  lemma NewEnclosedNested(h: Heap, outer: Option<Ref>)
    requires Nested(h) && (outer.Some? ==> outer.value < |h.cells|)
    ensures Nested(NewEnclosed(h, outer).1)
  {
    var (r, h') := NewEnclosed(h, outer);
    forall f: nat | IsFrame(h', f) && h'.cells[f].outer.Some?
      ensures h'.cells[f].outer.value < f
    {
      if f < |h.cells| {
        assert IsFrame(h, f);
      }
    }
  }

  /** Binding a name changes no frame's link, so the heap stays nested. */
  lemma SetNested(h: Heap, f: Ref, name: string, v: Value)
    requires Nested(h)
    ensures Nested(Set(h, f, name, v))
  {
    var h' := Set(h, f, name, v);
    forall g: nat | IsFrame(h', g) && h'.cells[g].outer.Some?
      ensures h'.cells[g].outer.value < g
    {
      assert IsFrame(h, g);
    }
  }

  /** `env.Set(name, v)`: bind `name` in frame `f` itself. */
  function Set(h: Heap, f: Ref, name: string, v: Value): (h': Heap)
    ensures |h'.cells| == |h.cells| &&
            forall q :: 0 <= q < |h.cells| && q != f ==> h'.cells[q] == h.cells[q]
    ensures forall q :: IsFrame(h', q) == IsFrame(h, q)
  {
    if IsFrame(h, f) then
      var c := h.cells[f];
      Heap(h.cells[f := FrameCell(c.vars[name := v], c.outer)])
    else h
  }

  /** After `Set`, the name is bound to the new value in that frame. */
  lemma GetAfterSet(h: Heap, f: Ref, name: string, v: Value)
    requires IsFrame(h, f)
    ensures Get(Set(h, f, name, v), f, name) == Some(v)
  {
  }

  /** `Set` changes no other name, seen from any frame. */
  lemma {:induction false} GetAfterSetOther(h: Heap, f: Ref, name: string, v: Value, g: Ref, other: string)
    requires other != name
    ensures Get(Set(h, f, name, v), g, other) == Get(h, g, other)
    decreases g
  {
    var h' := Set(h, f, name, v);
    if IsFrame(h, g) {
      var c := h.cells[g];
      var c' := h'.cells[g];
      assert c'.outer == c.outer;
      assert (other in c'.vars) == (other in c.vars);
      assert other in c.vars ==> c'.vars[other] == c.vars[other];
      if other !in c.vars && c.outer.Some? && c.outer.value < g {
        GetAfterSetOther(h, f, name, v, c.outer.value, other);
      }
    }
  }

  /** Allocating a new object changes no lookup from an existing frame. */
  lemma {:induction false} GetAfterGrow(h: Heap, h': Heap, g: Ref, name: string)
    requires |h.cells| <= |h'.cells| && h'.cells[..|h.cells|] == h.cells
    requires g < |h.cells|
    ensures Get(h', g, name) == Get(h, g, name)
    decreases g
  {
    assert h'.cells[g] == h.cells[g];
    if IsFrame(h, g) {
      var c := h.cells[g];
      if name !in c.vars && c.outer.Some? && c.outer.value < g {
        GetAfterGrow(h, h', c.outer.value, name);
      }
    }
  }

  /**
   * A fresh frame enclosed by `o` has no bindings of its own: every
   * lookup falls through to `o`, and lookups from older frames are
   * unaffected.
   */
  lemma GetInNewFrame(h: Heap, o: Ref, name: string)
    requires o < |h.cells|
    ensures var (f, h') := NewEnclosed(h, Some(o));
            Get(h', f, name) == Get(h, o, name)
  {
    var (f, h') := NewEnclosed(h, Some(o));
    GetAfterGrow(h, h', o, name);
  }
}
