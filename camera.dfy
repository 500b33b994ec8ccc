/**
 * The thin-lens camera (src/camera.rs). `to_radians` and `tan` are
 * parameters, and so is the sample `Vec3::random_in_unit_disk` that
 * `get_ray` draws.
 */
module Cameras {
  import opened Vectors
  import opened Rays

  datatype Camera = Camera(
    origin: Point3,
    lowerLeftCorner: Point3,
    horizontal: Vec3,
    vertical: Vec3,
    u: Vec3,
    v: Vec3,
    w: Vec3,
    lensRadius: real)

  /** Three mutually orthogonal vectors of length one. */
  predicate Orthonormal(u: Vec3, v: Vec3, w: Vec3)
  {
    LengthSquared(u) == 1.0 && LengthSquared(v) == 1.0 && LengthSquared(w) == 1.0
    && Dot(u, v) == 0.0 && Dot(v, w) == 0.0 && Dot(u, w) == 0.0
  }

  /** `2 * tan(theta / 2)` where `theta` is the vertical field of view in radians. */
  function ViewportHeight(vfovInDegrees: real, toRadians: real -> real, tan: real -> real): (height: real)
    ensures height / 2.0 == tan(toRadians(vfovInDegrees) / 2.0)
  {
    var theta := toRadians(vfovInDegrees);
    var h := tan(theta / 2.0);
    2.0 * h
  }

  /** The image plane's width at unit distance: the aspect ratio times its height. */
  function ViewportWidth(vfovInDegrees: real, aspectRatio: real, toRadians: real -> real, tan: real -> real): (width: real)
    ensures ViewportHeight(vfovInDegrees, toRadians, tan) != 0.0 ==>
              width / ViewportHeight(vfovInDegrees, toRadians, tan) == aspectRatio
  {
    var height := ViewportHeight(vfovInDegrees, toRadians, tan);
    ScaledByHeight(aspectRatio, height);
    aspectRatio * height
  }

  lemma ScaledByHeight(k: real, height: real)
    ensures height != 0.0 ==> k * height / height == k
  {
    if height != 0.0 {
      Cancel(height, k);
      assert k * height == height * k;
    }
  }

  /**
   * `Camera::new`. The camera needs a view direction (`lookFrom != lookAt`)
   * and a `vup` that is not parallel to it, which is what the cross
   * product being non-zero says; otherwise the source divides by zero.
   */
  function NewCamera(lookFrom: Point3, lookAt: Point3, vup: Vec3, vfovInDegrees: real, aspectRatio: real,
                     aperture: real, focusDist: real,
                     sqrt: real -> real, toRadians: real -> real, tan: real -> real): (c: Camera)
    requires IsSqrt(sqrt)
    requires Cross(vup, Sub(lookFrom, lookAt)) != Zero
    ensures Scale(Length(Sub(lookFrom, lookAt), sqrt), c.w) == Sub(lookFrom, lookAt)
    ensures Scale(Length(Cross(vup, c.w), sqrt), c.u) == Cross(vup, c.w)
  {
    var viewportHeight := ViewportHeight(vfovInDegrees, toRadians, tan);
    var viewportWidth := ViewportWidth(vfovInDegrees, aspectRatio, toRadians, tan);

    ViewDirectionNonZero(vup, Sub(lookFrom, lookAt));
    var w := UnitVector(Sub(lookFrom, lookAt), sqrt);
    CrossWithUnitNonZero(vup, Sub(lookFrom, lookAt), sqrt);
    var u := UnitVector(Cross(vup, w), sqrt);
    var v := Cross(w, u);

    var org := lookFrom;
    var horizontal := Scale(focusDist * viewportWidth, u);
    var vertical := Scale(focusDist * viewportHeight, v);
    var lowerLeftCorner := Sub(Sub(Sub(org, Div(horizontal, 2.0)), Div(vertical, 2.0)), Scale(focusDist, w));
    var lensRadius := aperture / 2.0;

    Camera(org, lowerLeftCorner, horizontal, vertical, u, v, w, lensRadius)
  }

  /**
   * The camera sits at `lookFrom`, its lens radius is half the aperture and
   * the image plane, at unit distance, is `ViewportWidth` by `ViewportHeight`,
   * scaled out to the focus distance.
   */
  lemma NewCameraViewport(lookFrom: Point3, lookAt: Point3, vup: Vec3, vfovInDegrees: real,
                          aspectRatio: real, aperture: real, focusDist: real,
                          sqrt: real -> real, toRadians: real -> real, tan: real -> real)
    requires IsSqrt(sqrt)
    requires Cross(vup, Sub(lookFrom, lookAt)) != Zero
    ensures var c := NewCamera(lookFrom, lookAt, vup, vfovInDegrees, aspectRatio, aperture, focusDist,
                               sqrt, toRadians, tan);
            && c.origin == lookFrom
            && c.lensRadius == aperture / 2.0
            && c.horizontal == Scale(focusDist * ViewportWidth(vfovInDegrees, aspectRatio, toRadians, tan), c.u)
            && c.vertical == Scale(focusDist * ViewportHeight(vfovInDegrees, toRadians, tan), c.v)
  {
  }

  lemma ViewDirectionNonZero(vup: Vec3, d: Vec3)
    requires Cross(vup, d) != Zero
    ensures d != Zero
  {
  }

  /** Normalising the view direction keeps it non-parallel to `vup`. */
  lemma CrossWithUnitNonZero(vup: Vec3, d: Vec3, sqrt: real -> real)
    requires IsSqrt(sqrt) && Cross(vup, d) != Zero
    ensures d != Zero
    ensures Cross(vup, UnitVector(d, sqrt)) != Zero
  {
    ViewDirectionNonZero(vup, d);
    var w := UnitVector(d, sqrt);
    LengthZero(d, sqrt);
    CrossLaws(vup, w, Length(d, sqrt));
    assert Scale(Length(d, sqrt), Zero) == Zero;
  }

  /** `u`, `v` and `w` form an orthonormal basis. */
  lemma NewCameraIsOrthonormal(lookFrom: Point3, lookAt: Point3, vup: Vec3, vfovInDegrees: real,
                               aspectRatio: real, aperture: real, focusDist: real,
                               sqrt: real -> real, toRadians: real -> real, tan: real -> real)
    requires IsSqrt(sqrt)
    requires Cross(vup, Sub(lookFrom, lookAt)) != Zero
    ensures var c := NewCamera(lookFrom, lookAt, vup, vfovInDegrees, aspectRatio, aperture, focusDist,
                               sqrt, toRadians, tan);
            Orthonormal(c.u, c.v, c.w)
  {
    var c := NewCamera(lookFrom, lookAt, vup, vfovInDegrees, aspectRatio, aperture, focusDist,
                       sqrt, toRadians, tan);
    CrossWithUnitNonZero(vup, Sub(lookFrom, lookAt), sqrt);
    var x := Cross(vup, c.w);
    LengthZero(x, sqrt);
    DotLaws(x, c.w, c.w, 1.0);
    assert Dot(x, c.w) == 0.0;
    DotLaws(c.u, c.w, c.w, Length(x, sqrt));
    assert Scale(Length(x, sqrt), c.u) == x;
    assert Length(x, sqrt) * Dot(c.u, c.w) == 0.0;
    ZeroProduct(Length(x, sqrt), Dot(c.u, c.w));
    DotLaws(c.u, c.w, c.w, 1.0);
    CrossLengthSquared(c.w, c.u);
    assert LengthSquared(c.w) * LengthSquared(c.u) - Dot(c.w, c.u) * Dot(c.w, c.u) == 1.0;
  }

  /**
   * `lower_left_corner` is placed so that the middle of the image plane
   * lies `focusDist` in front of the camera, along `-w`.
   */
  lemma NewCameraCentre(lookFrom: Point3, lookAt: Point3, vup: Vec3, vfovInDegrees: real,
                        aspectRatio: real, aperture: real, focusDist: real,
                        sqrt: real -> real, toRadians: real -> real, tan: real -> real)
    requires IsSqrt(sqrt)
    requires Cross(vup, Sub(lookFrom, lookAt)) != Zero
    ensures var c := NewCamera(lookFrom, lookAt, vup, vfovInDegrees, aspectRatio, aperture, focusDist,
                               sqrt, toRadians, tan);
            Add(c.lowerLeftCorner, Add(Div(c.horizontal, 2.0), Div(c.vertical, 2.0)))
            == Sub(c.origin, Scale(focusDist, c.w))
  {
  }

  /** `get_ray(s, t)`: a ray from a random point of the lens towards the image-plane point `(s, t)`. */
  function GetRay(c: Camera, s: real, t: real, randomInUnitDisk: Vec3): (r: Ray)
    ensures Add(r.origin, r.direction) == Add(Add(c.lowerLeftCorner, Scale(s, c.horizontal)), Scale(t, c.vertical))
    ensures c.lensRadius == 0.0 ==> r.origin == c.origin
  {
    var rd := Scale(c.lensRadius, randomInUnitDisk);
    var offset := Add(MulScalar(c.u, rd.x), MulScalar(c.v, rd.y));
    var target := Add(Add(c.lowerLeftCorner, Scale(s, c.horizontal)), Scale(t, c.vertical));
    OffsetCancels(c.origin, offset, target);
    Ray(Add(c.origin, offset), Sub(Sub(target, c.origin), offset))
  }

  /** Moving the start of a ray by `offset` and its direction by `-offset` keeps its aim point. */
  lemma OffsetCancels(origin: Point3, offset: Vec3, target: Point3)
    ensures Add(Add(origin, offset), Sub(Sub(target, origin), offset)) == target
  {
  }

  /** With no aperture the lens sample does not matter: every ray starts at `lookFrom`. */
  lemma PinholeCamera(lookFrom: Point3, lookAt: Point3, vup: Vec3, vfovInDegrees: real, aspectRatio: real,
                      focusDist: real, sqrt: real -> real, toRadians: real -> real, tan: real -> real,
                      s: real, t: real, sample1: Vec3, sample2: Vec3)
    requires IsSqrt(sqrt)
    requires Cross(vup, Sub(lookFrom, lookAt)) != Zero
    ensures var c := NewCamera(lookFrom, lookAt, vup, vfovInDegrees, aspectRatio, 0.0, focusDist,
                               sqrt, toRadians, tan);
            GetRay(c, s, t, sample1) == GetRay(c, s, t, sample2) && GetRay(c, s, t, sample1).origin == lookFrom
  {
  }

  /** The lens offset lies in the plane of `u` and `v`, perpendicular to the view axis `w`. */
  lemma LensOffsetPerpendicular(c: Camera, s: real, t: real, randomInUnitDisk: Vec3)
    requires Orthonormal(c.u, c.v, c.w)
    ensures Dot(Sub(GetRay(c, s, t, randomInUnitDisk).origin, c.origin), c.w) == 0.0
  {
    var rd := Scale(c.lensRadius, randomInUnitDisk);
    var offset := Add(MulScalar(c.u, rd.x), MulScalar(c.v, rd.y));
    assert Sub(GetRay(c, s, t, randomInUnitDisk).origin, c.origin) == offset;
    DotInPlane(rd.x, rd.y, c.u, c.v, c.w);
  }

  /** A combination of two vectors orthogonal to `w` is orthogonal to `w`. */
  lemma DotInPlane(a: real, b: real, x: Vec3, y: Vec3, w: Vec3)
    requires Dot(x, w) == 0.0 && Dot(y, w) == 0.0
    ensures Dot(Add(Scale(a, x), Scale(b, y)), w) == 0.0
  {
    DotLaws(Scale(a, x), Scale(b, y), w, a);
    DotLaws(x, w, w, a);
    DotLaws(y, w, w, b);
    assert a * Dot(x, w) == 0.0;
    assert b * Dot(y, w) == 0.0;
  }

  /**
   * Every ray aims at a point of the focus plane, the plane through the
   * image-plane centre perpendicular to `w`, whatever the lens sample.
   */
  lemma AimPointOnFocusPlane(lookFrom: Point3, lookAt: Point3, vup: Vec3, vfovInDegrees: real,
                             aspectRatio: real, aperture: real, focusDist: real,
                             sqrt: real -> real, toRadians: real -> real, tan: real -> real,
                             s: real, t: real, randomInUnitDisk: Vec3)
    requires IsSqrt(sqrt)
    requires Cross(vup, Sub(lookFrom, lookAt)) != Zero
    ensures var c := NewCamera(lookFrom, lookAt, vup, vfovInDegrees, aspectRatio, aperture, focusDist,
                               sqrt, toRadians, tan);
            var r := GetRay(c, s, t, randomInUnitDisk);
            Dot(Sub(Add(r.origin, r.direction), Sub(c.origin, Scale(focusDist, c.w))), c.w) == 0.0
  {
    var c := NewCamera(lookFrom, lookAt, vup, vfovInDegrees, aspectRatio, aperture, focusDist,
                       sqrt, toRadians, tan);
    var r := GetRay(c, s, t, randomInUnitDisk);
    NewCameraViewport(lookFrom, lookAt, vup, vfovInDegrees, aspectRatio, aperture, focusDist,
                      sqrt, toRadians, tan);
    NewCameraIsOrthonormal(lookFrom, lookAt, vup, vfovInDegrees, aspectRatio, aperture, focusDist,
                           sqrt, toRadians, tan);
    NewCameraCentre(lookFrom, lookAt, vup, vfovInDegrees, aspectRatio, aperture, focusDist,
                    sqrt, toRadians, tan);
    AimOffset(c.lowerLeftCorner, c.origin, c.horizontal, c.vertical, c.w, focusDist, s, t);
    assert Sub(Add(r.origin, r.direction), Sub(c.origin, Scale(focusDist, c.w)))
        == Add(Scale(s - 0.5, c.horizontal), Scale(t - 0.5, c.vertical));
    DotScaledZero(focusDist * ViewportWidth(vfovInDegrees, aspectRatio, toRadians, tan), c.u, c.w);
    DotLaws(c.v, c.w, c.w, 1.0);
    DotScaledZero(focusDist * ViewportHeight(vfovInDegrees, toRadians, tan), c.v, c.w);
    DotInPlane(s - 0.5, t - 0.5, c.horizontal, c.vertical, c.w);
  }

  lemma DotScaledZero(k: real, x: Vec3, w: Vec3)
    requires Dot(x, w) == 0.0
    ensures Dot(Scale(k, x), w) == 0.0
  {
    DotLaws(x, w, w, k);
    assert k * Dot(x, w) == 0.0;
  }

  /** Seen from the image-plane centre, the aim point is `(s - 1/2) horizontal + (t - 1/2) vertical`. */
  lemma AimOffset(lowerLeftCorner: Point3, origin: Point3, horizontal: Vec3, vertical: Vec3, w: Vec3,
                  focusDist: real, s: real, t: real)
    requires lowerLeftCorner
             == Sub(Sub(Sub(origin, Div(horizontal, 2.0)), Div(vertical, 2.0)), Scale(focusDist, w))
    ensures Sub(Add(Add(lowerLeftCorner, Scale(s, horizontal)), Scale(t, vertical)), Sub(origin, Scale(focusDist, w)))
            == Add(Scale(s - 0.5, horizontal), Scale(t - 0.5, vertical))
  {
  }

  /** With no lens offset, the ray through the middle of the image looks straight along `-w`. */
  lemma CentreRay(lookFrom: Point3, lookAt: Point3, vup: Vec3, vfovInDegrees: real, aspectRatio: real,
                  focusDist: real, sqrt: real -> real, toRadians: real -> real, tan: real -> real,
                  randomInUnitDisk: Vec3)
    requires IsSqrt(sqrt)
    requires Cross(vup, Sub(lookFrom, lookAt)) != Zero
    ensures var c := NewCamera(lookFrom, lookAt, vup, vfovInDegrees, aspectRatio, 0.0, focusDist,
                               sqrt, toRadians, tan);
            GetRay(c, 0.5, 0.5, randomInUnitDisk).direction == Scale(-focusDist, c.w)
  {
    NewCameraCentre(lookFrom, lookAt, vup, vfovInDegrees, aspectRatio, 0.0, focusDist,
                    sqrt, toRadians, tan);
  }
}
