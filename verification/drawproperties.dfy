/** What Module_draw promises about a scene graph as a whole
    (lib/module.c:280-477): elements act in list order, matrix elements
    accumulate into the LTM with the later one applied last, every module
    starts from LTM = identity, a sub-module is drawn by reference with
    GTM × LTM and leaves the caller's DrawState alone, and the nesting
    bound only ever decides whether a draw finishes, never what it
    draws. */
module DrawProperties {
  import opened CNum
  import opened Colors
  import opened Geometry
  import opened Matrices
  import opened DrawStates
  import opened Modules
  import opened ModuleDraw
  import Lines
  import Polygons

  // ------------------------------------------------------ list order

  /** Walking a concatenation walks the first list, then the second from
      where the first stopped. */
  lemma {:induction false} RunAppend(sc: Scene, s: Store, es1: seq<Element>, es2: seq<Element>,
                                     gtm: Matrix, w: Walk, fuel: nat)
    requires Ready(sc, s)
    requires forall i :: 0 <= i < |es1| ==> ElementOk(s, es1[i])
    requires forall i :: 0 <= i < |es2| ==> ElementOk(s, es2[i])
    ensures forall i :: 0 <= i < |es1 + es2| ==> ElementOk(s, (es1 + es2)[i])
    ensures Run(sc, s, es1 + es2, gtm, w, fuel)
            == match Run(sc, s, es1, gtm, w, fuel)
               case None => None
               case Some(w1) => Run(sc, s, es2, gtm, w1, fuel)
    decreases |es1|
  {
    if es1 == [] {
      assert es1 + es2 == es2;
    } else {
      assert (es1 + es2)[0] == es1[0];
      assert (es1 + es2)[1..] == es1[1..] + es2;
      match Visit(sc, s, es1[0], gtm, w, fuel)
      case None =>
      case Some(w1) => RunAppend(sc, s, es1[1..], es2, gtm, w1, fuel);
    }
  }

  // ------------------------------------------------------ nesting bound

  /** More nesting allowance never changes a draw that finished. */
  lemma {:induction false} DrawMoreFuel(sc: Scene, s: Store, md: nat, gtm: Matrix, ds: DrawState,
                                        fuel: nat, more: nat)
    requires Ready(sc, s) && md < |s| && s[md].Live?
    requires Draw(sc, s, md, gtm, ds, fuel).Some?
    ensures Draw(sc, s, md, gtm, ds, fuel + more) == Draw(sc, s, md, gtm, ds, fuel)
    decreases fuel, 2, 0
  {
    RunMoreFuel(sc, s, s[md].elements, gtm, Walk(Identity(), ds, Polygons.SetNULL(), []), fuel, more);
  }

  lemma {:induction false} RunMoreFuel(sc: Scene, s: Store, es: seq<Element>, gtm: Matrix, w: Walk,
                                       fuel: nat, more: nat)
    requires Ready(sc, s) && forall i :: 0 <= i < |es| ==> ElementOk(s, es[i])
    requires Run(sc, s, es, gtm, w, fuel).Some?
    ensures Run(sc, s, es, gtm, w, fuel + more) == Run(sc, s, es, gtm, w, fuel)
    decreases fuel, 1, |es|
  {
    if es != [] {
      VisitMoreFuel(sc, s, es[0], gtm, w, fuel, more);
      var w1 := Visit(sc, s, es[0], gtm, w, fuel).value;
      RunMoreFuel(sc, s, es[1..], gtm, w1, fuel, more);
    }
  }

  lemma {:induction false} VisitMoreFuel(sc: Scene, s: Store, e: Element, gtm: Matrix, w: Walk,
                                        fuel: nat, more: nat)
    requires Ready(sc, s) && ElementOk(s, e)
    requires Visit(sc, s, e, gtm, w, fuel).Some?
    ensures Visit(sc, s, e, gtm, w, fuel + more) == Visit(sc, s, e, gtm, w, fuel)
    decreases fuel, 0, 0
  {
    if e.kind == ObjModule {
      DrawMoreFuel(sc, s, e.obj.id, Multiply(gtm, w.ltm), w.ds, fuel - 1, more);
    } else {
      VisitAct(sc, s, e, gtm, w, fuel);
      VisitAct(sc, s, e, gtm, w, fuel + more);
    }
  }

  /** A list without sub-modules needs no nesting allowance: it always
      finishes, and with any allowance draws the same. */
  lemma {:induction false} RunFlat(sc: Scene, s: Store, es: seq<Element>, gtm: Matrix, w: Walk, fuel: nat)
    requires Ready(sc, s) && forall i :: 0 <= i < |es| ==> ElementOk(s, es[i]) && es[i].kind != ObjModule
    ensures Run(sc, s, es, gtm, w, fuel).Some?
    ensures Run(sc, s, es, gtm, w, fuel) == Run(sc, s, es, gtm, w, 0)
    decreases |es|
  {
    if es != [] {
      RunFlat(sc, s, es[1..], gtm, Act(sc, es[0], gtm, w), fuel);
      RunFlat(sc, s, es[1..], gtm, Act(sc, es[0], gtm, w), 0);
    }
  }

  // ------------------------------------------------------ single elements

  /** ObjMatrix multiplies its matrix onto the LTM from the left and
      draws nothing. */
  lemma ActMatrix(sc: Scene, e: Element, gtm: Matrix, w: Walk)
    requires sc.lights.Valid() && e.kind == ObjMatrix && Carries(e)
    ensures Act(sc, e, gtm, w) == w.(ltm := Multiply(e.obj.matrix, w.ltm))
  {
  }

  /** ObjColor replaces the current colour and draws nothing. */
  lemma ActColor(sc: Scene, e: Element, gtm: Matrix, w: Walk)
    requires sc.lights.Valid() && e.kind == ObjColor && Carries(e)
    ensures Act(sc, e, gtm, w) == w.(ds := SetColor(w.ds, e.obj.color))
  {
  }

  /** ObjLine draws the line through VTM × GTM × LTM in the current colour. */
  lemma ActLine(sc: Scene, e: Element, gtm: Matrix, w: Walk)
    requires sc.lights.Valid() && e.kind == ObjLine && Carries(e)
    ensures Act(sc, e, gtm, w) == w.(out := w.out + [LineCommand(sc.vtm, gtm, w.ltm, e.obj.line, w.ds.color)])
  {
  }

  /** A point element is transformed in place, as Module_draw does it;
      while LTM, GTM and VTM are translations and scales this is where a
      line endpoint would land, and under a quarter turn it is not. */
  lemma ActPoint(sc: Scene, e: Element, gtm: Matrix, w: Walk)
    requires sc.lights.Valid() && e.kind == ObjPoint && Carries(e)
    ensures Act(sc, e, gtm, w) == w.(out := w.out + [PointCommandAsWritten(sc.vtm, gtm, w.ltm, e.obj.point, w.ds.color)])
    ensures UpperTriangular(w.ltm) && UpperTriangular(gtm) && UpperTriangular(sc.vtm) ==>
              Act(sc, e, gtm, w) == w.(out := w.out + [PointCommand(sc.vtm, gtm, w.ltm, e.obj.point, w.ds.color)])
  {
    if UpperTriangular(w.ltm) && UpperTriangular(gtm) && UpperTriangular(sc.vtm) {
      PointCommandAsWrittenUpperTriangular(sc.vtm, gtm, w.ltm, e.obj.point, w.ds.color);
    }
  }

  /** An element other than a sub-module is visited by Act alone. */
  lemma VisitAct(sc: Scene, s: Store, e: Element, gtm: Matrix, w: Walk, fuel: nat)
    requires Ready(sc, s) && ElementOk(s, e) && e.kind != ObjModule
    ensures Visit(sc, s, e, gtm, w, fuel) == Some(Act(sc, e, gtm, w))
  {
  }

  /** A non-empty list is its first visit, then the rest. */
  lemma RunCons(sc: Scene, s: Store, es: seq<Element>, gtm: Matrix, w: Walk, fuel: nat, w1: Walk)
    requires Ready(sc, s) && forall i :: 0 <= i < |es| ==> ElementOk(s, es[i])
    requires es != [] && Visit(sc, s, es[0], gtm, w, fuel) == Some(w1)
    ensures Run(sc, s, es, gtm, w, fuel) == Run(sc, s, es[1..], gtm, w1, fuel)
  {
  }

  /** A one-element list is one visit. */
  lemma RunSingle(sc: Scene, s: Store, e: Element, gtm: Matrix, w: Walk, fuel: nat)
    requires Ready(sc, s) && ElementOk(s, e)
    ensures Run(sc, s, [e], gtm, w, fuel) == Visit(sc, s, e, gtm, w, fuel)
  {
    assert [e][1..] == [];
  }

  // ------------------------------------------------------ matrix elements

  /** The matrix elements the builders append (each one StepElement),
      one per step. */
  function StepElements(steps: seq<Step>): (es: seq<Element>)
    ensures |es| == |steps|
    ensures forall i :: 0 <= i < |steps| ==> es[i].kind == ObjMatrix && es[i].obj == MatrixObj(StepMatrix(steps[i]))
  {
    seq(|steps|, i requires 0 <= i < |steps| => Element(ObjMatrix, MatrixObj(StepMatrix(steps[i]))))
  }

  /** Matrix elements only. */
  predicate AllMatrices(es: seq<Element>)
  {
    forall i :: 0 <= i < |es| ==> es[i].kind == ObjMatrix && es[i].obj.MatrixObj?
  }

  /** The LTM after a list of matrix elements, each multiplied on from
      the left in turn. */
  function Accumulate(ltm: Matrix, es: seq<Element>): Matrix
    requires AllMatrices(es)
    decreases |es|
  {
    if es == [] then ltm else Accumulate(Multiply(es[0].obj.matrix, ltm), es[1..])
  }

  /** A run of matrix elements draws nothing and leaves
      LTM = M_k × … × M_1 × LTM: each element's matrix is applied after
      the ones before it. */
  lemma {:induction false} RunMatrices(sc: Scene, s: Store, es: seq<Element>, gtm: Matrix, w: Walk, fuel: nat)
    requires Ready(sc, s) && AllMatrices(es)
    ensures forall i :: 0 <= i < |es| ==> ElementOk(s, es[i])
    ensures Run(sc, s, es, gtm, w, fuel) == Some(w.(ltm := Accumulate(w.ltm, es)))
    decreases |es|
  {
    if es != [] {
      var w1 := w.(ltm := Multiply(es[0].obj.matrix, w.ltm));
      ActMatrix(sc, es[0], gtm, w);
      VisitAct(sc, s, es[0], gtm, w, fuel);
      RunCons(sc, s, es, gtm, w, fuel, w1);
      RunMatrices(sc, s, es[1..], gtm, w1, fuel);
    }
  }

  /** The elements the builders append accumulate to the matrix the
      builders' steps build. */
  lemma {:induction false} AccumulateSteps(m: Matrix, steps: seq<Step>)
    ensures AllMatrices(StepElements(steps))
    ensures Accumulate(m, StepElements(steps)) == ApplyAll(m, steps)
    decreases |steps|
  {
    if steps != [] {
      var es := StepElements(steps);
      assert es[1..] == StepElements(steps[1..]);
      var mat := es[0].obj.matrix;
      assert mat == StepMatrix(steps[0]);
      ApplyAllCons(m, steps);
      AccumulateSteps(Multiply(mat, m), steps[1..]);
    }
  }

  /** The first step of a list multiplies its matrix on first. */
  lemma ApplyAllCons(m: Matrix, steps: seq<Step>)
    requires steps != []
    ensures ApplyAll(m, steps) == ApplyAll(Multiply(StepMatrix(steps[0]), m), steps[1..])
  {
  }

  /** A module of matrix elements followed by one line: the line is drawn
      once, in the current colour, through VTM × GTM × LTM where LTM is
      accumulated from the identity by the matrix elements in order; the
      DrawState is left as it was. */
  lemma TransformedLine(sc: Scene, s: Store, md: nat, gtm: Matrix, ds: DrawState,
                        es: seq<Element>, l: Lines.Line, fuel: nat)
    requires Ready(sc, s) && md < |s| && AllMatrices(es)
    requires s[md] == Live(es + [Element(ObjLine, LineObj(l))])
    ensures Draw(sc, s, md, gtm, ds, fuel)
            == Some(([DrawLine(Lines.LineNormalize(XformLine(Full(sc.vtm, gtm, Accumulate(Identity(), es)), l)), ds.color)], ds))
  {
    var w0 := Walk(Identity(), ds, Polygons.SetNULL(), []);
    var w1 := w0.(ltm := Accumulate(Identity(), es));
    var line := [Element(ObjLine, LineObj(l))];
    RunMatrices(sc, s, es, gtm, w0, fuel);
    RunAppend(sc, s, es, line, gtm, w0, fuel);
    RunSingle(sc, s, line[0], gtm, w1, fuel);
    VisitAct(sc, s, line[0], gtm, w1, fuel);
    ActLine(sc, line[0], gtm, w1);
  }

  /** The same for the elements the matrix builders append: LTM is the
      matrix their steps build from the identity. */
  lemma TransformedLineSteps(sc: Scene, s: Store, md: nat, gtm: Matrix, ds: DrawState,
                             steps: seq<Step>, l: Lines.Line, fuel: nat)
    requires Ready(sc, s) && md < |s|
    requires s[md] == Live(StepElements(steps) + [Element(ObjLine, LineObj(l))])
    ensures Draw(sc, s, md, gtm, ds, fuel)
            == Some(([DrawLine(Lines.LineNormalize(XformLine(Full(sc.vtm, gtm, ApplyAll(Identity(), steps)), l)), ds.color)], ds))
  {
    AccumulateSteps(Identity(), steps);
    TransformedLine(sc, s, md, gtm, ds, StepElements(steps), l, fuel);
  }

  /** Where the built LTM sends a model point is where the steps, done
      one after another, move it. */
  lemma StepsMovePoints(steps: seq<Step>, p: Point)
    ensures Xform(ApplyAll(Identity(), steps), p) == MoveAll(p, steps)
  {
    ApplyAllActs(Identity(), steps, p);
    XformIdentity(p);
  }

  // ------------------------------------------------------ attributes

  /** ObjColor sets the colour the following primitives are drawn in. */
  lemma ColorThenLine(sc: Scene, s: Store, c: Color, l: Lines.Line, gtm: Matrix, w: Walk, fuel: nat)
    requires Ready(sc, s)
    ensures var es := [Element(ObjColor, ColorObj(c)), Element(ObjLine, LineObj(l))];
            && (forall i :: 0 <= i < |es| ==> ElementOk(s, es[i]))
            && Run(sc, s, es, gtm, w, fuel)
               == Some(w.(ds := SetColor(w.ds, c), out := w.out + [LineCommand(sc.vtm, gtm, w.ltm, l, c)]))
  {
    var es := [Element(ObjColor, ColorObj(c)), Element(ObjLine, LineObj(l))];
    var w1 := w.(ds := SetColor(w.ds, c));
    ActColor(sc, es[0], gtm, w);
    assert es[1..] == [es[1]];
    RunSingle(sc, s, es[1], gtm, w1, fuel);
    ActLine(sc, es[1], gtm, w1);
  }

  /** A circle ignores LTM and GTM: whatever the modelling transforms, the
      same circle goes to Circle_draw with the VTM only. */
  lemma CircleIgnoresModelling(sc: Scene, e: Element, gtm1: Matrix, gtm2: Matrix, w1: Walk, w2: Walk)
    requires sc.lights.Valid() && e.kind == ObjCircle && Carries(e)
    requires w1.ds.color == w2.ds.color
    ensures Act(sc, e, gtm1, w1).out[|w1.out|] == Act(sc, e, gtm2, w2).out[|w2.out|]
            == DrawCircle(e.obj.circle, w1.ds.color, sc.vtm)
  {
  }

  // ------------------------------------------------------ sub-modules

  /** A module whose only element is a sub-module draws exactly what the
      sub-module draws under the same GTM (the parent's LTM is still the
      identity), one nesting level deeper, and hands back its caller's
      DrawState untouched whatever the sub-module set. */
  lemma SubmoduleOnly(sc: Scene, s: Store, parent: nat, child: nat, gtm: Matrix, ds: DrawState, fuel: nat)
    requires Ready(sc, s) && parent < |s| && child < |s| && s[child].Live?
    requires s[parent] == Live([Element(ObjModule, ModuleObj(child))])
    ensures Draw(sc, s, parent, gtm, ds, fuel + 1)
            == match Draw(sc, s, child, gtm, ds, fuel)
               case None => None
               case Some((out, _)) => Some((out, ds))
  {
    IdentityUnit(gtm);
    var w0 := Walk(Identity(), ds, Polygons.SetNULL(), []);
    RunSingle(sc, s, s[parent].elements[0], gtm, w0, fuel + 1);
    assert Multiply(gtm, w0.ltm) == gtm;
  }

  /** Sub-modules are held by reference: an element added to the child
      after the parent took it is drawn by the parent too. */
  lemma ChildEditSeenByParent(sc: Scene, s: Store, parent: nat, child: nat, e: Element,
                              gtm: Matrix, ds: DrawState, fuel: nat)
    requires Ready(sc, s) && parent < |s| && child < |s| && parent != child && s[child].Live?
    requires s[parent] == Live([Element(ObjModule, ModuleObj(child))])
    requires ElementOk(s, e)
    ensures var s' := Modules.Insert(s, child, e);
            && Ready(sc, s') && s'[parent] == s[parent] && s'[child].elements == s[child].elements + [e]
            && Draw(sc, s', parent, gtm, ds, fuel + 1)
               == match Draw(sc, s', child, gtm, ds, fuel)
                  case None => None
                  case Some((out, _)) => Some((out, ds))
  {
    var s' := Modules.Insert(s, child, e);
    InsertKeepsWellFormed(s, child, e);
    SubmoduleOnly(sc, s', parent, child, gtm, ds, fuel);
  }
}
