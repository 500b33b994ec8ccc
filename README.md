# A verified model of a small Rust ray tracer

This project models the core of a "Ray Tracing in One Weekend" style renderer written in Rust. The core consists of:

- 3-vectors and their operators;
- rays and points along them;
- hit records and their front-face normal;
- the ray–sphere intersection;
- the nearest-hit search over a list of objects;
- the Lambertian and metal materials;
- the thin-lens camera;
- the one-bounce normal/sky shading of `Ray::color`.

Each Rust file is a Dafny module:

| Rust file | Dafny file | module |
|---|---|---|
| `src/vec3.rs` | `vec3.dfy` | `Vectors` |
| `src/ray.rs` | `ray.dfy` and `ray_color.dfy` | `Rays` and `Shading` |
| `src/hittable.rs` | `hittable.dfy` | `Hittables` |
| `src/sphere.rs` | `sphere.dfy` | `Spheres` |
| `src/hittable_list.rs` | `hittable_list.dfy` | `HittableLists` |
| `src/material.rs` | `material.dfy` | `Materials` |
| `src/camera.rs` | `camera.dfy` | `Cameras` |

`Option` lives in `options.dfy`.

`Ray::color` is a separate module, `Shading`, because it queries a `HittableList`, and that module is itself built on `Rays`. Dafny forbids cyclic imports.

How the Rust code maps onto Dafny:

- **Numbers.** `f64` arithmetic is modelled by exact `real` arithmetic.
- **Math routines.** `f64::sqrt` is a function parameter `sqrt`. Wherever it is used, it must satisfy `IsSqrt`: for `x >= 0`, `sqrt(x) >= 0` and `sqrt(x) * sqrt(x) == x`. `to_radians` and `tan` are parameters too.
- **Random samples.** The samples (`random_unit_vector`, `random_in_unit_sphere`, `random_in_unit_disk`) are `Vec3` parameters.
- **Vector helpers.** `near_zero` and `reflect` are function parameters. `src/vec3.rs` does not define them, so they are not part of this model.
- **Mutable state.** `HitRecord` (mutated by `set_face_normal`) and `HittableList` (mutated by `clear` and `add`) are classes. A mutable `Vec3` place, the receiver of `+=`, `*=` and `/=`, is the class `Vec3Var`.
- **Values.** Everything else is a datatype or a function.
- **Methods proved against functions.** `Sphere::hit` and `HittableList::hit` are methods proved equal to the specification functions `Spheres.Root` and `HittableLists.Closest`. Properties of those functions are proved as lemmas: the reported root lies on the sphere, and no other in-range intersection is nearer.

## Model

| member | source | states |
|---|---|---|
| Vectors.Neg | src/vec3.rs:39-45 | `-v` is the additive inverse: `v + (-v) == 0` |
| Vectors.Sub | src/vec3.rs:59-65 | `a - b` equals `a + (-b)`, and adding `b` back gives `a` |
| Vectors.MulScalar | src/vec3.rs:83-89 | `v * s` multiplies every component by `s` |
| Vectors.ScaleLaws | src/vec3.rs:75-89 | the laws of `Scale` (`f64 * Vec3`): `v * s == s * v`; scaling distributes over `+`, composes multiplicatively, and scaling by 1 or -1 gives `v` or `-v` |
| Vectors.Div | src/vec3.rs:91-97 | `v / s`, computed as `(1 / s) * v` as the source does, divides every component by `s`, and multiplying back by `s` gives `v` |
| Vectors.AddLaws | src/vec3.rs:47-57 | the laws of `Add`: `+` is commutative and associative, has the zero vector as unit, and `-(-a) == a` |
| Vectors.Mul | src/vec3.rs:67-73 | multiplying elementwise by (1,1,1) gives the other factor back, and by the zero vector gives zero |
| Vectors.MulLaws | src/vec3.rs:67-73 | the elementwise product is commutative with unit (1,1,1) |
| Vectors.LengthSquared | src/vec3.rs:32-34 | `length_squared` is `v . v` and never negative |
| Vectors.LengthSquaredZero | src/vec3.rs:32-34 | the squared length is 0 exactly for the zero vector (both directions) |
| Vectors.Length | src/vec3.rs:28-30 | `length` is non-negative and its square is `length_squared` |
| Vectors.LengthZero | src/vec3.rs:28-30 | the length is 0 exactly for the zero vector (both directions) |
| Vectors.DotLaws | src/vec3.rs:122-124 | the laws of `Dot`: it is symmetric, additive, homogeneous in either argument, and negating an argument negates it |
| Vectors.NegLaws | src/vec3.rs:39-45 | negating the second argument negates a dot product; negation keeps the squared length |
| Vectors.SumLengthSquared | src/vec3.rs:122-124 | \|a+b\|² = \|a\|² + 2 a·b + \|b\|² |
| Vectors.Cross | src/vec3.rs:126-132 | `a × b` is orthogonal to both `a` and `b` |
| Vectors.CrossLaws | src/vec3.rs:126-132 | `cross` is anti-commutative, `a × a == 0`, and scaling its second argument scales the result (`a × (s b) == s (a × b)`) |
| Vectors.CrossLengthSquared | src/vec3.rs:126-132 | Lagrange's identity: \|a×b\|² = \|a\|²\|b\|² − (a·b)² |
| Vectors.UnitVector | src/vec3.rs:134-136 | for a non-zero `v`, `unit_vector` has length 1 and scaling it by `length(v)` gives back `v` |
| Vectors.LengthSquaredScale | src/vec3.rs:75-81 | \|k v\|² = k² \|v\|² |
| Vectors.UnitComponentsBounded | src/vec3.rs:32-34 | every component of a unit vector lies in [-1, 1] |
| Vectors.Vec3Var.AddAssign | src/vec3.rs:99-107 | `+=` leaves the place holding `old + other` |
| Vectors.Vec3Var.MulAssign | src/vec3.rs:109-113 | `*=` leaves the place holding `s * old` |
| Vectors.Vec3Var.DivAssign | src/vec3.rs:115-119 | `/=` leaves the place holding `old / s` |
| Rays.At | src/ray.rs:23-25 | `at(t) - origin == t * direction` |
| Rays.AtZero | src/ray.rs:23-25 | `at(0)` is the origin |
| Rays.AtAffine | src/ray.rs:23-25 | `at(t1) - at(t2) == (t1 - t2) * direction` |
| Hittables.FaceNormal | src/hittable.rs:21-28 | the stored normal always opposes the ray (`dir . n <= 0`); it is the outward normal when the ray hits the front, else its negation; its length is that of the outward normal |
| Hittables.HitRecord.constructor | src/hittable.rs:12-19 | a new record holds `p` and `t`, a zero normal and `front_face == false` |
| Hittables.FrontFaceOfReversed | src/hittable.rs:22 | reversing the outward normal turns a front face into a back face, and for a non-tangent ray the converse holds too |
| Hittables.HitRecord.SetFaceNormal | src/hittable.rs:21-28 | sets `front_face` to `dir . outward < 0` and `normal` to `FaceNormal`; `p` and `t` are unchanged |
| Hittables.SetFaceNormalTwice | src/hittable.rs:21-28 | a second `set_face_normal` with the same ray and outward normal leaves all four fields as the first call left them |
| Spheres.Coefficients | src/sphere.rs:28-31 | the leading coefficient is the squared length of the direction |
| Spheres.CoefficientsDescribeSphere | src/sphere.rs:28-33 | the quadratic at `t` is \|at(t) − centre\|² − r², so it vanishes exactly where the ray meets the sphere |
| Spheres.Root | src/sphere.rs:33-45 | a reported root lies in `[t_min, t_max]` |
| Spheres.SelectRoot | src/sphere.rs:38-45 | the chosen root is in range and is `(-half_b ∓ sqrtd) / a` |
| Spheres.RootMeets | src/sphere.rs:27-45 | a reported root is a point where the ray meets the sphere |
| Spheres.RootIsNearest | src/sphere.rs:27-45 | if the ray meets the sphere at any in-range `t`, a root is reported and it is no greater than `t` |
| Spheres.SelectRootIsNearest | src/sphere.rs:38-45 | for `a > 0`, the near root is preferred: any in-range root is at least the chosen one |
| Spheres.DiscriminantOfSolution | src/sphere.rs:33 | a quadratic that has a solution has a non-negative discriminant |
| Spheres.NegativeDiscriminantMisses | src/sphere.rs:33-36 | with a negative discriminant the ray meets the sphere nowhere |
| Spheres.OutwardNormal | src/sphere.rs:49 | `radius * outward_normal == p - centre` |
| Spheres.OutwardNormalIsUnit | src/sphere.rs:47-49 | at a point on the sphere the outward normal has length 1 |
| Spheres.NegativeRadiusSameRoots | src/sphere.rs:31 | negating the radius leaves the reported root unchanged (only `r²` enters the quadratic) |
| Spheres.NegativeRadiusFlipsNormal | src/sphere.rs:49 | negating the radius negates the outward normal (a hollow sphere) |
| Spheres.DescribedNormal | src/sphere.rs:47-53 | the record `hit` returns has a unit normal facing against the ray |
| Spheres.Hit | src/sphere.rs:27-54 | returns none exactly when `Root` is none; otherwise a fresh record at the root with point `at(t)`, the front-face flag and `FaceNormal` of the outward normal |
| HittableLists.Closest | src/hittable_list.rs:25-36 | the fold over the objects reports an index of the list and an in-range `t` at which that object is met |
| HittableLists.ClosestIsNearest | src/hittable_list.rs:25-36 | if any object is met at an in-range `t`, a hit is reported and its `t` is no greater |
| HittableLists.ClosestNoneIffAllMiss | src/hittable_list.rs:25-36 | no hit is reported exactly when every object misses in `[t_min, t_max]` |
| HittableLists.ClosestNeverIncreases | src/hittable_list.rs:28-32 | scanning more objects never loses the hit and never increases `t_closest` |
| HittableLists.HittableList.constructor | src/hittable_list.rs:9-13 | a new list is empty |
| HittableLists.HittableList.Clear | src/hittable_list.rs:15-17 | `clear` empties the list |
| HittableLists.HittableList.Add | src/hittable_list.rs:19-21 | `add` appends the object at the end |
| HittableLists.HittableList.Hit | src/hittable_list.rs:25-36 | the loop with the shrinking `t_closest` returns none exactly when `Closest` does; otherwise a record describing the nearest object's hit at `Closest`'s `t` |
| Materials.NewMetal | src/material.rs:46-51 | `fuzz` is `min(f, 1)`: at most 1, at most `f`, and equal to one of them, so every metal built this way is `WellFormed` |
| Materials.LambertianScatter | src/material.rs:20-37 | always scatters, with the albedo as attenuation, from `rec.p`, towards `normal + sample`, or towards `normal` when that sum is near zero |
| Materials.LambertianDirectionFacesOut | src/material.rs:24 | for unit normal and sample, `(n + s) . n == \|n + s\|² / 2 >= 0`: the diffuse direction never points into the surface |
| Materials.MetalDirection | src/material.rs:56-57 | with zero fuzz the direction is the pure mirror reflection of the unit incoming direction |
| Materials.MetalScatter | src/material.rs:55-63 | scatters exactly when the fuzzed reflection leaves the surface (`dir . normal > 0`), with the albedo, from `rec.p` |
| Materials.Scatter | src/material.rs:5-7 | dispatch: a Lambertian surface always scatters, towards `normal + sample` or towards `normal` when that sum is near zero; a metal one is `MetalScatter` and, when it scatters, leaves the surface strictly; every scattered ray carries the albedo and starts at `rec.p`; with a unit normal and unit diffuse sample no scattered ray points into the surface (`dir . normal >= 0`) |
| Cameras.ViewportHeight | src/camera.rs:25-27 | half the image height at unit distance is `tan` of half the vertical field of view |
| Cameras.ViewportWidth | src/camera.rs:28 | width over height is the aspect ratio (for a non-zero height) |
| Cameras.NewCamera | src/camera.rs:16-50 | `w` is the unit vector along `look_from - look_at`, and `u` the unit vector along `vup × w` |
| Cameras.NewCameraViewport | src/camera.rs:25-38 | the camera sits at `look_from`, the lens radius is half the aperture, and the image plane spans `focus_dist * width * u` by `focus_dist * height * v` |
| Cameras.NewCameraIsOrthonormal | src/camera.rs:30-32 | `u`, `v`, `w` form an orthonormal basis |
| Cameras.NewCameraCentre | src/camera.rs:37 | the centre of the image plane is `origin - focus_dist * w` |
| Cameras.GetRay | src/camera.rs:52-60 | the ray aims at `lower_left_corner + s * horizontal + t * vertical` (origin plus direction); with no lens the origin is the camera's |
| Cameras.PinholeCamera | src/camera.rs:53-57 | with aperture 0, rays do not depend on the lens sample and start at `look_from` |
| Cameras.LensOffsetPerpendicular | src/camera.rs:53-54 | the lens offset lies in the `u`–`v` plane, orthogonal to `w` |
| Cameras.AimPointOnFocusPlane | src/camera.rs:52-60 | every aim point lies on the focus plane: `aim − (origin − focus_dist · w)` is orthogonal to `w` |
| Cameras.CentreRay | src/camera.rs:52-60 | with aperture 0, the ray through the image centre has direction `-focus_dist * w` |
| Shading.NormalColor | src/ray.rs:28-29 | the colour `0.5 (n + 1)` encodes the normal: `2c − 1 == n` |
| Shading.NormalColorInUnitCube | src/ray.rs:28-29 | a unit normal yields a colour with every component in [0, 1] |
| Shading.BlendFactor | src/ray.rs:33 | maps `unit_y` in [-1, 1] into [0, 1], inverted by `2t − 1` |
| Shading.SkyColor | src/ray.rs:34 | for `t` in [0, 1] the colour lies in the unit cube, with red and green at least sky blue's and blue equal to 1 |
| Shading.SkyWhite | src/ray.rs:34 | the blend at `t = 0` is white |
| Shading.SkyBlueEnd | src/ray.rs:34 | the blend at `t = 1` is sky blue (0.5, 0.7, 1.0) |
| Shading.SkyEnds | src/ray.rs:32-34 | straight up the sky is (0.5, 0.7, 1.0); straight down it is white |
| Shading.SkyMonotone | src/ray.rs:33-34 | as `t` grows, the red and green components never increase and blue stays 1 |
| Shading.RayColor | src/ray.rs:27-35 | queries `[0, ∞]`; a hit gives `NormalColor` of the face normal of the nearest object, a miss gives the sky colour of the unit direction's `y`; the result is always in the unit cube |

## Left out

- `src/main.rs` (scene set-up and the per-pixel sampling loop) is not part of this model. It calls a depth-limited `color(&world, max_depth)` that none of the source files defines, so no recursive bounce is modelled. Neither are `Display` and `print_color` in `src/vec3.rs`, which only format output.
- The dielectric material is not part of this model. The source's `Material` and `Hittable` traits are closed sums here: `Material` is a datatype with the two implemented kinds, and a `HittableList` holds spheres only, so lists nested in lists are not modelled.
- The random samplers, `near_zero` and `reflect` are not defined in `src/vec3.rs`, so they are not part of this model. They are parameters; the metal's scattered direction is stated in terms of the `reflect` it is given.
- IEEE-754 behaviour (rounding, infinities other than the `t_max = INFINITY` bound, NaN) is not modelled. `f64::INFINITY` is the `PositiveInfinity` case of `Limit`.
- Spheres.Hit requires a non-zero ray direction and a non-zero radius. The source divides by `a` and by the radius; with zero it would produce infinities or NaN, which reals cannot represent.
- Spheres.Root requires a non-zero ray direction, for the same reason.
- HittableLists.HittableList.Hit requires a non-zero ray direction and that no sphere in the list has radius zero, because it calls `Spheres.Hit`.
- Cameras.NewCamera requires `vup × (look_from − look_at) ≠ 0`, for the same reason: otherwise `unit_vector` divides by zero.
- HitRecord has no material field. `src/hittable.rs:12-19` defines `new(p, t)` and no material, although `src/sphere.rs:50` passes the sphere's material as a third argument. Materials read `rec.p` and `rec.normal` directly.
- Materials.NewMetal: `f.min(1.)` only clamps from above, as the source does; a negative fuzz is kept. A `Metal` value written directly, bypassing `NewMetal`, need not be `WellFormed`; the Rust fields are private, so the program cannot build one.
- Hittables.FaceNormal: the function composed with itself, `FaceNormal(r, FaceNormal(r, n))`, is not `FaceNormal(r, n)` for a tangent ray (`dir . n == 0`), so no such law is stated. This is not the idempotence of `set_face_normal`: calling it twice with the same arguments gives the state of one call, which `Hittables.SetFaceNormalTwice` proves.
- Bounds are inclusive at both ends, as the `<=` comparisons at src/sphere.rs:39 and src/sphere.rs:41 are. Among objects hit at the same `t`, the last one in the list wins.
