/** `struct HitRecord` of CppPathTracing/src/hittable.h: a record the
    intersection routines fill in place through a reference. */
module CppHittable {
  import opened Vector
  import opened Rays
  import opened MaterialKind
  import Objects

  class HitRecord {
    var point: Vec3
    var normal: Vec3
    var material: Material
    var t: real
    var frontFace: bool

    /** `HitRecord rec;`: the vector members start at (0,0,0); the others are
        left indeterminate by C++, so nothing is promised about them. */
    constructor ()
      ensures point == Zero && normal == Zero
    {
      point, normal := Zero, Zero;
    }

    /** The record's contents as the value the Python model returns. */
    function Value(): Objects.HitRecord
      reads this
    {
      Objects.HitRecord(point, normal, t, frontFace, material)
    }

    /** `set_face_normal`: store whether the ray arrives from outside and the
        normal turned against the ray; the other members keep their values. */
    method SetFaceNormal(r: Ray, outwardNormal: Vec3)
      modifies this
      ensures frontFace <==> Dot(r.direction, outwardNormal) < 0.0
      ensures normal == if frontFace then outwardNormal else Neg(outwardNormal)
      ensures Dot(r.direction, normal) <= 0.0
      ensures (frontFace, normal) == Objects.FaceNormal(r, outwardNormal)
      ensures point == old(point) && t == old(t) && material == old(material)
    {
      frontFace := Dot(r.direction, outwardNormal) < 0.0;
      normal := if frontFace then outwardNormal else Neg(outwardNormal);
    }
  }
}
