/** The ray tracer's scene list (lib/ray_module.c,
    include/cb_ray_module.h): elements tagged plane or sphere, their
    property getters, and a module that is a list of elements appended
    at the tail. */
module RayModules {
  import opened Colors
  import opened RayObjects

  /** The tag.  RayObjType declares RayObjSphere (0) and RayObjPlane (1);
      any other value a caller stores falls to the getters' default
      branch. */
  datatype RayObjType = RayObjSphere | RayObjPlane | RayObjOther(code: int)

  /** The payload union: a sphere or a plane, or bytes nobody wrote. */
  datatype RayObject = NoPayload | SphereObj(sphere: Sphere) | PlaneObj(plane: Plane)

  datatype RayElement = RayElement(rtype: RayObjType, obj: RayObject)

  /** The payload holds what the tag says, so a getter reads a field
      that was written. */
  predicate Tagged(e: RayElement)
  {
    match e.rtype
    case RayObjSphere => e.obj.SphereObj?
    case RayObjPlane => e.obj.PlaneObj?
    case RayObjOther(_) => true
  }

  /** RayElement_create: the type field is set to ObjNone, whose value 0
      is RayObjSphere in this enumeration, and the payload is whatever
      the allocation held (`junk`). */
  function RayElementCreate(junk: Sphere): (e: RayElement)
    ensures e.rtype == RayObjSphere && Tagged(e)
  {
    RayElement(RayObjSphere, SphereObj(junk))
  }

  /** RayElement_init: the tag, and a copy of the payload the tag
      selects; for any other tag nothing is copied. */
  function RayElementInit(t: RayObjType, obj: RayObject): (e: RayElement)
    requires t == RayObjSphere ==> obj.SphereObj?
    requires t == RayObjPlane ==> obj.PlaneObj?
    ensures e.rtype == t && Tagged(e)
    ensures t.RayObjOther? <==> e.obj == NoPayload
    ensures !t.RayObjOther? ==> e.obj == obj
  {
    match t
    case RayObjSphere => RayElement(t, obj)
    case RayObjPlane => RayElement(t, obj)
    case RayObjOther(_) => RayElement(t, NoPayload)
  }

  // ------------------------------------------------------ getters

  /** RayElement_getDiffuseColor. */
  function DiffuseColor(e: RayElement): (c: Color)
    requires Tagged(e)
  {
    match e.rtype
    case RayObjPlane => e.obj.plane.diffuse
    case RayObjSphere => e.obj.sphere.diffuse
    case RayObjOther(_) => Black
  }

  /** RayElement_getSpecularColor. */
  function SpecularColor(e: RayElement): (c: Color)
    requires Tagged(e)
  {
    match e.rtype
    case RayObjPlane => e.obj.plane.specular
    case RayObjSphere => e.obj.sphere.specular
    case RayObjOther(_) => Black
  }

  /** RayElement_getRefractionColor. */
  function RefractionColor(e: RayElement): (c: Color)
    requires Tagged(e)
  {
    match e.rtype
    case RayObjPlane => e.obj.plane.refraction
    case RayObjSphere => e.obj.sphere.refraction
    case RayObjOther(_) => Black
  }

  /** RayElement_getIndexOfRefraction. */
  function IndexOfRefraction(e: RayElement): (r: real)
    requires Tagged(e)
  {
    match e.rtype
    case RayObjPlane => e.obj.plane.rIndex
    case RayObjSphere => e.obj.sphere.rIndex
    case RayObjOther(_) => 0.0
  }

  /** RayElement_isRefractive. */
  function IsRefractive(e: RayElement): (b: int)
    requires Tagged(e)
  {
    match e.rtype
    case RayObjPlane => e.obj.plane.isRefractive
    case RayObjSphere => e.obj.sphere.isRefractive
    case RayObjOther(_) => 0
  }

  /** RayElement_isReflective. */
  function IsReflective(e: RayElement): (b: int)
    requires Tagged(e)
  {
    match e.rtype
    case RayObjPlane => e.obj.plane.isReflective
    case RayObjSphere => e.obj.sphere.isReflective
    case RayObjOther(_) => 0
  }

  /** Every getter reads the field of the plane for a plane element. */
  lemma GettersOfPlane(p: Plane)
    ensures var e := RayElementInit(RayObjPlane, PlaneObj(p));
            && DiffuseColor(e) == p.diffuse && SpecularColor(e) == p.specular
            && RefractionColor(e) == p.refraction && IndexOfRefraction(e) == p.rIndex
            && IsRefractive(e) == p.isRefractive && IsReflective(e) == p.isReflective
  {
  }

  /** ... the field of the sphere for a sphere element ... */
  lemma GettersOfSphere(s: Sphere)
    ensures var e := RayElementInit(RayObjSphere, SphereObj(s));
            && DiffuseColor(e) == s.diffuse && SpecularColor(e) == s.specular
            && RefractionColor(e) == s.refraction && IndexOfRefraction(e) == s.rIndex
            && IsRefractive(e) == s.isRefractive && IsReflective(e) == s.isReflective
  {
  }

  /** ... and black, 0.0 or 0 for any other tag. */
  lemma GettersOfOther(code: int, obj: RayObject)
    ensures var e := RayElementInit(RayObjOther(code), obj);
            && DiffuseColor(e) == Black && SpecularColor(e) == Black
            && RefractionColor(e) == Black && IndexOfRefraction(e) == 0.0
            && IsRefractive(e) == 0 && IsReflective(e) == 0
  {
  }

  /** An element fresh from RayElement_create reads as a sphere: its
      getters return the allocation's bytes taken as sphere fields. */
  lemma CreatedReadsAsSphere(junk: Sphere)
    ensures var e := RayElementCreate(junk);
            DiffuseColor(e) == junk.diffuse && IsReflective(e) == junk.isReflective
  {
  }

  // ------------------------------------------------------ the module

  /** A module's element list, or a module whose elements were freed by
      RayModule_clear while head and tail still point at them. */
  datatype RayModule = RayList(elements: seq<RayElement>) | RayFreed

  /** RayModule_create: an empty list. */
  function RayModuleCreate(): (r: RayModule)
    ensures r.RayList? && |r.elements| == 0
  {
    RayList([])
  }

  /** RayModule_insert: the element goes at the tail; an empty list gets
      it as head and tail. */
  function RayModuleInsert(rmd: RayModule, e: RayElement): (r: RayModule)
    requires rmd.RayList?
    ensures r.RayList? && |r.elements| == |rmd.elements| + 1
    ensures r.elements[..|rmd.elements|] == rmd.elements && r.elements[|rmd.elements|] == e
  {
    if rmd.elements == [] then RayList([e]) else RayList(rmd.elements + [e])
  }

  /** Elements are kept in insertion order. */
  lemma {:induction false} InsertOrder(rmd: RayModule, es: seq<RayElement>)
    requires rmd.RayList?
    ensures InsertEach(rmd, es) == RayList(rmd.elements + es)
    decreases |es|
  {
    if es != [] {
      var r1 := RayModuleInsert(rmd, es[0]);
      assert r1.elements == rmd.elements + [es[0]];
      InsertOrder(r1, es[1..]);
      assert rmd.elements + [es[0]] + es[1..] == rmd.elements + es;
    }
  }

  /** RayModule_insert applied to each element in turn. */
  function InsertEach(rmd: RayModule, es: seq<RayElement>): (r: RayModule)
    requires rmd.RayList?
    ensures r.RayList?
    decreases |es|
  {
    if es == [] then rmd else InsertEach(RayModuleInsert(rmd, es[0]), es[1..])
  }

  /** RayModule_plane: one plane element appended. */
  function RayModulePlane(rmd: RayModule, p: Plane): (r: RayModule)
    requires rmd.RayList?
    ensures r == RayList(rmd.elements + [RayElement(RayObjPlane, PlaneObj(p))])
  {
    RayModuleInsert(rmd, RayElementInit(RayObjPlane, PlaneObj(p)))
  }

  /** RayModule_sphere: one sphere element appended. */
  function RayModuleSphere(rmd: RayModule, s: Sphere): (r: RayModule)
    requires rmd.RayList?
    ensures r == RayList(rmd.elements + [RayElement(RayObjSphere, SphereObj(s))])
  {
    RayModuleInsert(rmd, RayElementInit(RayObjSphere, SphereObj(s)))
  }

  /** RayModule_clear frees every element and leaves head and tail
      pointing at freed memory: no list is left to insert into or to
      trace. */
  function RayModuleClear(rmd: RayModule): (r: RayModule)
    ensures !r.RayList?
  {
    RayFreed
  }
}
