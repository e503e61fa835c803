# PTSharpCore geometry and bookkeeping, modelled in Dafny

This project models the deterministic core of the PTSharpCore path tracer and proves properties of the model:

- **Value algebra.** The four-component vectors, RGB colours and 4x4 affine matrices. Material presets and `MaterialAt`. `Ray.Position`, `Reflect`, `Refract` and `Reflectance`. The branch logic of `Ray.Bounce`.
- **Hit records.** `Hit.NoHit`, `Ok` and `Info`.
- **Primitive shapes.** Each shape's bounding box, ray intersection, normal, texture coordinates and material: triangles (Möller–Trumbore), spheres, axis-aligned cubes and their 12-triangle mesh, capped cylinders, infinite planes, ray-marched height fields and spherical harmonics.
- **Axis-aligned boxes.** Including the slab intersection with IEEE division by zero and .NET `Math.Max`/`Math.Min` NaN semantics.
- **The k-d tree.** In two layers:
  - `KdTreeSpec` describes the tree `Split` builds and the hit the front-to-back traversal returns, as values.
  - `KdTree` is the mutable `Node`/`Tree` classes. They are proved to build and traverse exactly those values.

  The traversal is proved to find the nearest hit that a brute-force scan over all shapes finds.
- **The sample buffer.** A `Buffer` holds an array of `Pixel` objects. Each pixel runs Welford's update, which is proved to give the sample mean and the sum of squared deviations.
- **The scene container.** Append-only shape and light lists, a tree built once and a ray counter.
- **The Poisson background grid.** `insert`, with its 5 x 5 neighbourhood test.

Doubles are modelled as `real`. Where the source can divide by zero and relies on the IEEE outcome (the slab tests and the k-d split plane), `Numeric.Float` adds the two infinities and NaN. Elsewhere a zero divisor is excluded by a precondition.

`Math.Sqrt`, `Math.Pow`, `Math.Atan2`, `Math.Log` and the random draws are parameters. Where a contract needs more than the parameter's type, it states what the parameter must satisfy, e.g. `Numeric.IsSqrt`. `Util.EPS` and `Util.INF` are positive constants whose values are left open.

## Model

| member | source | states |
|---|---|---|
| Numeric.Div | PTSharpCore/Box.cs:70-75 | a non-zero divisor gives the real quotient; a zero divisor gives +infinity, -infinity or NaN as the dividend is positive, negative or zero |
| Numeric.FMax | PTSharpCore/Box.cs:89 | NaN exactly when either argument is NaN; otherwise the larger of the two |
| Numeric.FMin | PTSharpCore/Box.cs:90 | NaN exactly when either argument is NaN; otherwise the smaller of the two |
| Numeric.Ordered | PTSharpCore/Box.cs:77-88 | the pair or its swap, ordered so that the second is not below the first |
| Vectors.OperatorInverses | PTSharpCore/Vector.cs:32-75 | the operators `+` and `-` act on all four components and undo each other; unary minus twice and `1 * v` give `v` back, `w` included |
| Vectors.NamedInverses | PTSharpCore/Vector.cs:160-191 | `Add`/`Sub`, `Mul`/`Div` (non-zero divisor), `AddScalar`/`SubScalar`, `MulScalar`/`DivScalar` (non-zero scalar) and `Negate` twice return the operand with `w` reset to 1 |
| Vectors.OtherOperators | PTSharpCore/Vector.cs:42-80 | `^`, `%` and scalar `/` agree with `Cross`, `Mul` and `DivScalar` on x, y, z; `^` and `/` keep the left operand's `w` and `%` multiplies the `w`s; scalar `/` and scalar `*` undo each other, `w` included; `^` anti-commutes exactly when the operands' `w`s agree |
| Vectors.WComponent | PTSharpCore/Vector.cs:32-197 | the named methods, built with the three-argument constructor, all return `w = 1`; `+`/`-` combine the operands' `w` and scalar `*`/unary `-` keep it |
| Vectors.Min | PTSharpCore/Vector.cs:194 | each component of the result is at most both operands' and equal to one of them; `w = 1` |
| Vectors.Max | PTSharpCore/Vector.cs:197 | each component of the result is at least both operands' and equal to one of them; `w = 1` |
| Vectors.MinMaxOrder | PTSharpCore/Vector.cs:194-197 | `Min` is the greatest lower bound and `Max` the least upper bound of its operands in the componentwise order |
| Vectors.MinAxis | PTSharpCore/Vector.cs:200-212 | the result is one of the three unit axes; it is x exactly when `|x|` is smallest, y exactly when x loses and `|y| <= |z|`; the chosen axis's absolute component is at most the others |
| Vectors.MinComponent | PTSharpCore/Vector.cs:215 | at most every component and equal to one of them |
| Vectors.MaxComponent | PTSharpCore/Vector.cs:218 | at least every component and equal to one of them |
| Vectors.LengthSquared | PTSharpCore/Vector.cs:113 | the radicand of `Length` is never negative |
| Vectors.LengthSquaredPositive | PTSharpCore/Vector.cs:113 | a vector with a non-zero component has positive squared length |
| Vectors.LengthSquaredDot | PTSharpCore/Vector.cs:113-130 | the squared length is the vector's dot product with itself |
| Vectors.Normalize | PTSharpCore/Vector.cs:142-146 | for a non-zero vector the result has length 1, `w = 1`, and is a positive multiple of the input |
| Vectors.NormalizeByLength | PTSharpCore/Vector.cs:142-146 | normalising divides each component by the (positive) length |
| Vectors.DotCross | PTSharpCore/Vector.cs:127-139 | `Dot` is symmetric, `Cross(a, b)` is orthogonal to `a` and to `b`, and swapping the operands negates it |
| Vectors.ReflectProperties | PTSharpCore/Vector.cs:221 | about a unit normal, reflection negates the component along the normal, keeps the squared length, and reflecting twice returns the incoming direction |
| Vectors.Refract | PTSharpCore/Vector.cs:224-238 | the result is the all-zero `new Vector()` exactly under total internal reflection (`sinT2 > 1`) |
| Vectors.RefractUnit | PTSharpCore/Vector.cs:224-238 | outside total internal reflection, refracting a unit direction about a unit normal gives a unit direction |
| Vectors.Reflectance | PTSharpCore/Vector.cs:241-256 | under total internal reflection the reflectance is 1 |
| Vectors.ReflectanceBounds | PTSharpCore/Vector.cs:241-256 | for positive indices and a direction meeting the front of the surface, the denominators are non-zero and the reflectance lies in [0, 1] |
| Colours.NewColor | PTSharpCore/Colour.cs:30 | each channel times 65535 is the given integer, so a 16-bit value lands in [0, 1] |
| Colours.ByteAt | PTSharpCore/Colour.cs:34-36 | `(x >> k) & 0xff` is a byte, in [0, 255], for every `int` including negative ones |
| Colours.HexBytes | PTSharpCore/Colour.cs:34-36 | the three extracted bytes each lie in [0, 255] |
| Colours.HexBytesRoundTrip | PTSharpCore/Colour.cs:34-36 | for a 24-bit code, `r * 65536 + g * 256 + b` gives the code back: the three shifts and masks split it without loss |
| Colours.HexColor | PTSharpCore/Colour.cs:32-39 | only the low 24 bits of the code matter: red is their top byte, green the middle one and blue the low one, each divided by 255 and raised to 2.2 |
| Colours.LowBytes | PTSharpCore/Colour.cs:34-36 | the three bytes the shifts and masks extract are those of the code modulo `2^24` |
| Colours.Pow | PTSharpCore/Colour.cs:41 | every channel raised to the same exponent |
| Colours.Kelvin | PTSharpCore/Colour.cs:59-119 | every channel is clamped to at most 1; below 6600 K red is 1; below 1000 K the colour is (1, 0, 0); from 1000 K to 2000 K red is 1 and blue 0; from 6600 K blue is 1 |
| Colours.ArithmeticInverses | PTSharpCore/Colour.cs:128-138 | `Add`/`Sub`, `Mul`/`Div` (non-zero channels) and `MulScalar`/`DivScalar` (non-zero scalar) undo each other; `Add` and `Mul` commute; `Black` and `White` are their units |
| Colours.MixProperties | PTSharpCore/Colour.cs:121-126 | `Mix(b, 0)` is the receiver, `Mix(b, 1)` is `b`, mixing a colour with itself changes nothing, and for `0 <= pct <= 1` a channel of the mix lies between the two colours' channels |
| Colours.Min | PTSharpCore/Colour.cs:140 | each channel is at most both operands' and equal to one of them |
| Colours.Max | PTSharpCore/Colour.cs:142 | each channel is at least both operands' and equal to one of them |
| Colours.MinComponent | PTSharpCore/Colour.cs:144 | at most every channel and equal to one of them |
| Colours.MaxComponent | PTSharpCore/Colour.cs:146 | at least every channel and equal to one of them |
| Rays.PositionProperties | PTSharpCore/Ray.cs:17 | `Position(0)` is the origin, `Position(t) - Origin` is `t` directions, and moving `t` further along the ray from `Position(s)` reaches `Position(s + t)` |
| Rays.ReflectRay | PTSharpCore/Ray.cs:19 | the reflected ray starts at the normal ray's origin; about a unit normal it keeps the incoming length, flips the normal component, and reflecting twice gives the incoming direction back |
| Rays.Refract | PTSharpCore/Ray.cs:21 | the refracted ray starts at the normal ray's origin, and its direction is the zero vector exactly when `sin^2 t > 1` (total internal reflection) |
| Rays.Reflectance | PTSharpCore/Ray.cs:23 | under total internal reflection the reflectance is 1 |
| Bounces.IndicesAsWritten | PTSharpCore/Ray.cs:48-54 | as written, inside an object both indices equal the material's index; outside they are `(1, index)` |
| Bounces.Indices | PTSharpCore/Ray.cs:48-54 | the intended indices: inside `(index, 1)`, outside `(1, index)`; one side is always air |
| Bounces.AsWrittenNoTotalReflection | PTSharpCore/Ray.cs:48-56 | with the as-written indices a ray inside an object never has `sin^2 t > 1`, so total internal reflection cannot happen |
| Bounces.AsWrittenStraightThrough | PTSharpCore/Ray.cs:48-54 | with the as-written indices the refracted direction inside an object is the incoming direction: the ray is not bent on leaving |
| Bounces.IntendedTotalReflection | PTSharpCore/Ray.cs:48-56 | with the swapped indices a ray grazing the inside of glass (index 1.5) has `sin^2 t > 1`, reflectance 1 and a zero refracted direction; with the as-written indices the same ray has `sin^2 t = 1` |
| Bounces.Bounce | PTSharpCore/Ray.cs:43-86 | as written, with both indices equal to the material's index inside it: the reflect decision follows the bounce type (a draw below `p` for `Any`, never for `Diffuse`, always for `Specular`); a reflection returns the cone-jittered mirror ray with weight `p`; otherwise a transparent material returns the refracted ray moved `1e-4` along its direction with weight `1 - p`, and any other material the weighted diffuse ray with weight `1 - p` and no specular flag |
| Bounces.BounceIntended | PTSharpCore/Ray.cs:43-86 | the same three outcomes with the indices swapped inside a material, and the same result as `Bounce` for every hit from outside |
| Bounces.BounceDiverges | PTSharpCore/Ray.cs:48-84 | inside glass of index 1.5, meeting the surface with `cos i = 0.6`: as written the ray is refracted with weight 1 on every draw; with the swap it is reflected with weight 1 on every draw |
| Bounces.GrazingReflectances | PTSharpCore/Vector.cs:240-256 | for that ray the Fresnel reflectance is 0 with indices (1.5, 1.5) and 1 (total internal reflection) with (1.5, 1) |
| Bounces.BounceDefined | PTSharpCore/Ray.cs:56 | for a ray meeting the front of a surface with a positive index, every division in `Bounce` and in `BounceIntended` is defined, and the Fresnel probability lies in [0, 1] for both index pairs |
| Bounces.MetalReflects | PTSharpCore/Ray.cs:56-74 | a material with reflectivity 1 takes the reflect branch on every draw below 1, with weight 1 |
| Bounces.DiffuseNeverReflects | PTSharpCore/Ray.cs:56-84 | a diffuse material hit from outside has reflectance 0 and always returns the weighted diffuse ray with weight 1 and no specular flag |
| Materials.Diffuse | PTSharpCore/Material.cs:36-39 | the given colour, untextured, bump multiplier 1, opaque, emittance 0, index 1, gloss 0, tint 0, reflectivity -1 (left to the Fresnel term) |
| Materials.Specular | PTSharpCore/Material.cs:41-44 | the given colour and index, untextured, bump multiplier 1, opaque, emittance 0, gloss 0, tint 0, reflectivity -1 |
| Materials.Glossy | PTSharpCore/Material.cs:46-49 | the given colour, index and gloss, untextured, bump multiplier 1, opaque, emittance 0, tint 0, reflectivity -1 |
| Materials.Clear | PTSharpCore/Material.cs:51-54 | black, the given index and gloss, untextured, bump multiplier 1, transparent, emittance 0, tint 0, reflectivity -1 |
| Materials.Transparent | PTSharpCore/Material.cs:56-59 | the given colour, index, gloss and tint, untextured, bump multiplier 1, transparent, emittance 0, reflectivity -1 |
| Materials.Metallic | PTSharpCore/Material.cs:61-64 | the given colour, gloss and tint, untextured, bump multiplier 1, opaque, emittance 0, index 1, reflectivity 1 (so the Fresnel term is overridden) |
| Materials.Light | PTSharpCore/Material.cs:66-69 | the given colour and emittance, untextured, bump multiplier 1, opaque, index 1, gloss 0, tint 0, reflectivity -1 |
| Materials.PresetRelations | PTSharpCore/Material.cs:36-69 | a light is a diffuse material that emits; diffuse is specular with index 1; specular is glossy with gloss 0; clear is black transparent without tint; metallic without tint is glossy with index 1 and reflectivity 1 |
| Materials.MaterialAt | PTSharpCore/Material.cs:71-85 | a colour texture replaces the colour by its sample at the point's UV; a gloss texture replaces the gloss by the mean of its sample's channels; every other field is the shape's material unchanged |
| Materials.MaterialAtIdempotent | PTSharpCore/Material.cs:71-85 | looking the textures up a second time changes nothing, and an untextured material comes back unchanged |
| Hits.NoHit | PTSharpCore/Hit.cs:11-25 | the miss record has no shape, `T = 1e9` and no cached info, so it is not `Ok` |
| Hits.Info | PTSharpCore/Hit.cs:27-53 | a cached info comes back unchanged; otherwise the info is taken at the hit position, with the textured material there, and a normal that is the shape's normal or its negation and faces the ray; the ray is inside exactly when the shape's normal points along the ray and the shape is not a volume, signed-distance shape or spherical harmonic; the normal ray starts at the position |
| Boxes.Size | PTSharpCore/Box.cs:57 | `Min + Size` is `Max`, and a well-formed box has no negative extent |
| Boxes.Center | PTSharpCore/Box.cs:49-51 | the anchor at (0.5, 0.5, 0.5) is the corners' midpoint and lies inside a well-formed box |
| Boxes.Extend | PTSharpCore/Box.cs:59 | the result encloses both boxes and is enclosed by every box that encloses both: it is the smallest such box |
| Boxes.ContainsProperties | PTSharpCore/Box.cs:61-63 | a well-formed box contains both its corners, containment passes to enclosing boxes, and a box that contains any point is well formed |
| Boxes.IntersectsProperties | PTSharpCore/Box.cs:65-66 | intersection is symmetric, a well-formed box meets itself, boxes sharing a point intersect, and intersecting well-formed boxes share the point `Max(a.Min, b.Min)` |
| Boxes.Slab | PTSharpCore/Box.cs:70-88 | the swapped pair is ordered; for a positive direction it is `((lo - o) / d, (hi - o) / d)`, for a negative one the reverse, and a zero direction from inside the slab gives `(-inf, +inf)` |
| Boxes.SlabOrder | PTSharpCore/Box.cs:77-88 | dividing by a positive direction keeps the order of the two offsets and dividing by a negative one reverses it |
| Boxes.Intersect | PTSharpCore/Box.cs:68-92 | `t1` is the largest of the three near slab distances and `t2` the smallest of the three far ones: each is at least (at most) every slab's value and equal to one of them, and NaN exactly when a slab value is NaN |
| Boxes.SlabWithin | PTSharpCore/Box.cs:70-88 | a ray point inside one slab has its parameter between that slab's ordered distances |
| Boxes.IntersectWithin | PTSharpCore/Box.cs:68-92 | the parameter of every ray point inside the box lies in `[t1, t2]`, so `t2 < t1` fails and, for a point ahead of the origin, `t2 <= 0` fails |
| Boxes.WithinAll | PTSharpCore/Box.cs:89-91 | a parameter within all three slab intervals is within the max of the near distances and the min of the far distances |
| Boxes.Partition | PTSharpCore/Box.cs:94-112 | `left` holds exactly when the box's minimum on the axis is at most `point`, `right` exactly when its maximum is at least `point`; the flags are stored in the box and returned; a well-formed box is on at least one side; no axis changes nothing |
| Boxes.HullFromEncloses | PTSharpCore/Box.cs:27-31 | the running `Extend` encloses the start box and every shape's box |
| Boxes.BoxForShapes | PTSharpCore/Box.cs:21-33 | an empty default box when there are no shapes; otherwise the running `Extend` of all bounding boxes from the first one, which encloses every shape's box |
| Matrices.MulDirection | PTSharpCore/Matrix.cs:144-150 | the result has unit length and is the normalised difference of the images of `d` and of the origin: only the linear part acts |
| Matrices.MulRay | PTSharpCore/Matrix.cs:153 | the origin's image with a unit direction |
| Matrices.MulRayMapsPoints | PTSharpCore/Matrix.cs:134-153 | the point at `t` on the ray is mapped to the point at `t` times the length of the direction's image on the transformed ray |
| Matrices.DirectionIgnoresTranslation | PTSharpCore/Matrix.cs:144-150 | changing the translation column leaves `MulDirection` unchanged |
| Matrices.PositionFollowsTranslation | PTSharpCore/Matrix.cs:134-141 | adding `v` to the translation column moves every `MulPosition` image by `v` |
| Matrices.MulBox | PTSharpCore/Matrix.cs:156-174 | the per-column min/max construction always gives a well-formed box |
| Matrices.MulBoxContains | PTSharpCore/Matrix.cs:156-174 | the image under `MulPosition` of every point of the box lies in `MulBox` of the box, whatever the signs of the matrix entries |
| Matrices.ScaledAbove | PTSharpCore/Matrix.cs:162-170 | for `lo <= s <= hi`, `v * s` is at least `Min(v * lo, v * hi)` componentwise |
| Matrices.ScaledBelow | PTSharpCore/Matrix.cs:162-170 | for `lo <= s <= hi`, `v * s` is at most `Max(v * lo, v * hi)` componentwise |
| Matrices.TranslateBox | PTSharpCore/Matrix.cs:31-34 | the box of a translation matrix applied to a well-formed box is that box with both corners moved by the offset |
| Matrices.TransposeInvolution | PTSharpCore/Matrix.cs:177 | transposing twice gives the matrix back; the identity is symmetric |
| Matrices.IdentityUnit | PTSharpCore/Matrix.cs:25-28 | the identity is a left and right unit of `Mul`, fixes every point, and has determinant 1 by the source's expansion |
| Matrices.DeterminantProperties | PTSharpCore/Matrix.cs:180-194 | the source's expansion is unchanged by transposition, gives the product of the factors for a scaling and 1 for a translation |
| Matrices.TranslateScalePositions | PTSharpCore/Matrix.cs:31-40 | `Translate(v)` adds `v` to a point, `Scale(v)` multiplies it componentwise, and both are affine |
| Matrices.MulPositionCompose | PTSharpCore/Matrix.cs:111-141 | for an affine `b`, the image by `a.Mul(b)` is the image by `b` and then by `a` |
| Matrices.AfterCompose | PTSharpCore/Matrix.cs:102-105 | `Translate(m, v)` and `Scale(m, v)` map a point by `m` and then translate or scale it, and stay affine |
| Triangles.GramIsCross | PTSharpCore/Triangle.cs:195-210 | the determinant `d00 d11 - d01^2` that `Barycentric` divides by is the squared length of the face cross product (Lagrange's identity), so it is non-zero exactly for a non-degenerate triangle |
| Triangles.GramCross | PTSharpCore/Triangle.cs:200-205 | Lagrange's identity on two edge vectors: `|a|^2 |b|^2 - (a . b)^2 = |a x b|^2` |
| Triangles.Triangle.NewTriangle | PTSharpCore/Triangle.cs:33-45 | vertices, texture coordinates and material are stored; the three normals start at zero and `FixNormals` sets each to the face normal |
| Triangles.Triangle.BoundingBox | PTSharpCore/Triangle.cs:61-66 | a well-formed box that holds the three vertices and is enclosed by every box holding them |
| Triangles.Triangle.Intersect | PTSharpCore/Triangle.cs:68-116 | a miss, or a hit on this triangle at a distance of at least `EPS` with no cached info |
| Triangles.Triangle.IntersectOnTriangle | PTSharpCore/Triangle.cs:68-116 | every hit is a point of the closed triangle: the ray at the returned distance reaches `V1 + u (V2 - V1) + v (V3 - V1)` with `u, v >= 0` and `u + v <= 1` |
| Triangles.Triangle.IntersectFinds | PTSharpCore/Triangle.cs:68-116 | conversely, a point of the closed triangle reached at `s >= EPS` by a ray whose determinant is at least `EPS` in magnitude is reported as a hit at exactly `s` |
| Triangles.Triangle.CoincidentNeverHit | PTSharpCore/Triangle.cs:68-84 | a triangle with two coincident vertices has a zero determinant and is never hit, whatever the ray |
| Triangles.Triangle.Normal | PTSharpCore/Triangle.cs:189-194 | this triangle's face normal, whose properties `FaceNormal` states |
| Triangles.Triangle.FixNormals | PTSharpCore/Triangle.cs:211-224 | each vertex normal that equals the zero vector becomes the face normal; the other normals and all other fields keep their values |
| Triangles.Triangle.Barycentric | PTSharpCore/Triangle.cs:195-210 | the three weights sum to 1 |
| Triangles.Triangle.BarycentricRecovers | PTSharpCore/Triangle.cs:195-210 | the point `V1 + b (V2 - V1) + c (V3 - V1)` gets the weights `(1 - b - c, b, c)`: the weights solve for any point of the plane |
| Triangles.Triangle.UV | PTSharpCore/Triangle.cs:118-126 | the texture coordinate lies in the `z = 0` plane |
| Triangles.Triangle.UVAtVertices | PTSharpCore/Triangle.cs:118-126 | at each vertex the texture coordinate is that vertex's own `(x, y)` |
| Triangles.Triangle.UVOfWeights | PTSharpCore/Triangle.cs:118-126 | the texture coordinate is the weighted combination of `T1`, `T2`, `T3` with the barycentric weights |
| Triangles.Triangle.MaterialAt | PTSharpCore/Triangle.cs:128 | the triangle's own material, wherever it is asked |
| Triangles.FaceNormal | PTSharpCore/Triangle.cs:189-194 | a unit vector perpendicular to both edges |
| Triangles.Accept | PTSharpCore/Triangle.cs:81-115 | a miss, or (determinant at least `EPS` in magnitude) a hit whose parameters `u, v` are in the triangle and whose distance is at least `EPS` |
| Triangles.AcceptedSpan | PTSharpCore/Triangle.cs:76-115 | an accepted test gives parameters inside the triangle that solve `O - V1 = u e1 + v e2 - t d` |
| Triangles.FindsSpan | PTSharpCore/Triangle.cs:76-115 | an offset `u e1 + v e2 - s d` with parameters inside the triangle and `s >= EPS` is accepted at distance `s` when the determinant is not within `EPS` of zero |
| Triangles.BoxForTriangles | PTSharpCore/Box.cs:35-47 | no triangles give the default box; otherwise the box is exactly the running `Extend` hull of the triangles' boxes from the first to the last, and it encloses every one of them |
| Spheres.NewSphere | PTSharpCore/Sphere.cs:24-30 | the centre, radius and material are stored, and the box runs from `center - radius` to `center + radius` on each axis, so for a non-negative radius it is well formed and holds the centre |
| Spheres.Intersect | PTSharpCore/Sphere.cs:37-58 | a miss, or a hit on this sphere strictly beyond `EPS` with no cached info; a non-positive discriminant always misses |
| Spheres.Quadratic | PTSharpCore/Sphere.cs:39-42 | along a unit direction, `|P(t) - C|^2 - R^2 = t^2 + 2 b t + c` with the source's `b` and `c` |
| Spheres.IntersectOnSurface | PTSharpCore/Sphere.cs:37-58 | for a unit direction, every hit is a point of the sphere beyond `EPS` |
| Spheres.RootSolves | PTSharpCore/Sphere.cs:45-51 | `-b - sqrt d` and `-b + sqrt d` are roots of `t^2 + 2 b t + c` |
| Spheres.OnlyRoots | PTSharpCore/Sphere.cs:45-51 | and they are its only roots |
| Spheres.IntersectNearest | PTSharpCore/Sphere.cs:37-58 | if the ray (unit direction) reaches the sphere at some `t > EPS`, the discriminant is non-negative, and when it is positive the hit is at or before `t`: the nearest point of the sphere beyond `EPS` is found |
| Spheres.UVRange | PTSharpCore/Sphere.cs:60-68 | for the principal `atan2`, both texture coordinates lie in [0, 1] |
| Spheres.NormalAt | PTSharpCore/Sphere.cs:77-80 | a unit vector pointing from the centre towards the point |
| Planes.InfiniteBox | PTSharpCore/Plane.cs:19 | a well-formed box holding every point within `Util.INF` on each axis |
| Planes.NewPlane | PTSharpCore/Plane.cs:22-25 | the point and material are stored, the normal is a positive multiple of the given one with unit length, and the box is the infinite box |
| Planes.BoundingBox | PTSharpCore/Plane.cs:29-32 | the infinite box, whatever the plane |
| Planes.Intersect | PTSharpCore/Plane.cs:34-48 | a miss, or a hit on this plane at a distance of at least `EPS` with no cached info; a ray within `EPS` of parallel misses |
| Planes.Offset | PTSharpCore/Plane.cs:41-42 | the signed offset along the normal of the ray point `P(t)` from the plane's point is linear in `t` |
| Planes.IntersectOnPlane | PTSharpCore/Plane.cs:34-48 | every hit is a point of the plane |
| Planes.IntersectFinds | PTSharpCore/Plane.cs:34-48 | a ray not within `EPS` of parallel that reaches the plane at `t >= EPS` hits it at exactly `t` |
| Planes.UV | PTSharpCore/Plane.cs:50-53 | the zero vector for every point |
| Planes.MaterialAt | PTSharpCore/Plane.cs:55-58 | the plane's material for every point |
| Planes.NormalAt | PTSharpCore/Plane.cs:59-62 | the stored normal for every point |
| Planes.NormalProperties | PTSharpCore/Plane.cs:34-62 | the normal and material do not depend on the point, and the normal of every hit is at least `EPS` from perpendicular to the ray |
| Cubes.NewCube | PTSharpCore/Cube.cs:22-26 | the corners and material are stored and the box is built once from the two corners |
| Cubes.BoundingBox | PTSharpCore/Cube.cs:30 | the box built at construction, not a new one |
| Cubes.Intersect | PTSharpCore/Cube.cs:32-40 | a miss, or a hit on this cube at a positive distance with no cached info; it hits exactly when `0 < t0 < t1` for the entry distance `t0` and exit distance `t1`, with IEEE comparisons that are false on NaN |
| Cubes.IntersectInside | PTSharpCore/Cube.cs:32-40 | every hit of a cube with ordered corners is a point of its box, at a positive distance |
| Cubes.IntersectNearest | PTSharpCore/Cube.cs:32-40 | no point of the ray inside the box comes before the reported hit: the entry distance is the nearest one |
| Cubes.IntersectFinds | PTSharpCore/Cube.cs:32-40 | a ray from outside the box that passes through the box's interior at a positive distance hits the cube |
| Cubes.UV | PTSharpCore/Cube.cs:42-46 | the coordinates are the point's `x` and `z` offsets from the lower corner as fractions of the cube's extent, and lie in the `z = 0` plane |
| Cubes.UVRange | PTSharpCore/Cube.cs:42-46 | for points in the box both coordinates lie in [0, 1]; the lower corner maps to (0, 0) and the upper one to (1, 1) |
| Cubes.MaterialAt | PTSharpCore/Cube.cs:48 | the cube's material for every point |
| Cubes.NormalAt | PTSharpCore/Cube.cs:50-68 | each face normal is returned only for points within `EPS` of that face, tested in the order -x, +x, -y, +y, -z, +z |
| Cubes.NormalAtUnit | PTSharpCore/Cube.cs:50-68 | the normal always has unit length |
| Cubes.NormalOnFaces | PTSharpCore/Cube.cs:50-68 | on each face, at least `EPS` from the faces tested before it, the normal is that face's outward one |
| Cubes.CubeMesh | PTSharpCore/Cube.cs:70-99 | for any cube that is not flat (inverted corners included), twelve fresh triangles whose vertices are corners of the cube, with the cube's material and zero texture coordinates; none is degenerate and each has its face normal at all three vertices |
| Cylinders.NewCylinder | PTSharpCore/Cylinder.cs:11-19 | the radius, caps and material are stored |
| Cylinders.BoundingBox | PTSharpCore/Cylinder.cs:37-41 | the box `[-R, R] x [-R, R] x [Z0, Z1]`, well formed for a non-negative radius and ordered caps |
| Cylinders.Coefficients | PTSharpCore/Cylinder.cs:48-50 | the leading coefficient `dx^2 + dy^2` is never negative |
| Cylinders.Roots | PTSharpCore/Cylinder.cs:57-62 | the two roots of the quadratic formula, in increasing order |
| Cylinders.Pick | PTSharpCore/Cylinder.cs:63-73 | the first of the two ordered roots that lies beyond `EPS` with its point strictly between the caps; no hit when neither does |
| Cylinders.Intersect | PTSharpCore/Cylinder.cs:43-74 | a miss, or a hit on this cylinder beyond `EPS` strictly between the caps with no cached info; a discriminant below `EPS` always misses |
| Cylinders.LeadingPositive | PTSharpCore/Cylinder.cs:48-52 | a ray parallel to the axis has zero discriminant, so whenever the discriminant is positive the division by `2a` is defined |
| Cylinders.Quadratic | PTSharpCore/Cylinder.cs:48-50 | along the ray, `x^2 + y^2 - R^2` is `a t^2 + b t + c`, so the ray point is on the lateral surface exactly when `t` is a root |
| Cylinders.RootSolves | PTSharpCore/Cylinder.cs:56-58 | `(-b + s) / 2a` and `(-b - s) / 2a` are roots when `s^2` is the discriminant |
| Cylinders.OnlyRoots | PTSharpCore/Cylinder.cs:56-58 | and they are the only roots |
| Cylinders.IntersectOnSide | PTSharpCore/Cylinder.cs:43-74 | every hit is a point of the lateral surface, strictly between the caps, beyond `EPS` |
| Cylinders.HitIsRoot | PTSharpCore/Cylinder.cs:56-73 | a hit's distance is a root of the quadratic |
| Cylinders.IntersectNearest | PTSharpCore/Cylinder.cs:43-74 | if the discriminant is at least `EPS`, no point of the lateral surface between the caps beyond `EPS` comes before the reported hit |
| Cylinders.SideInBox | PTSharpCore/Cylinder.cs:37-41 | every point of the lateral surface between the caps lies in the bounding box |
| Cylinders.UV | PTSharpCore/Cylinder.cs:76 | the zero vector for every point |
| Cylinders.MaterialAt | PTSharpCore/Cylinder.cs:78 | the cylinder's material for every point |
| Cylinders.NormalAt | PTSharpCore/Cylinder.cs:80-84 | a unit vector with zero `z`, a positive multiple of the point's `(x, y)`: it points away from the axis |
| FunctionShapes.NewFunction | PTSharpCore/Function.cs:22-32 | the wrapped height function, box and material are stored |
| FunctionShapes.GetBoundingBox | PTSharpCore/Function.cs:36-39 | the stored box |
| FunctionShapes.BoundingBox | PTSharpCore/Function.cs:92-95 | the wrapped function's box, not the stored one |
| FunctionShapes.Height | PTSharpCore/Function.cs:87-90 | the wrapped function's height at `(x, y)` |
| FunctionShapes.Intersect | PTSharpCore/Function.cs:46-59 | no hit exactly when none of the samples `k/32 < 12` is in the box and on the other side of the surface from the first sample; otherwise the hit is at the sample before the first such crossing, between `1/32` and 12 |
| FunctionShapes.UVAsWritten | PTSharpCore/Function.cs:61-70 | the as-written coordinates `p.x - x1 / x2 - x1` lie in the `z = 0` plane |
| FunctionShapes.UVAsWrittenLeavesSquare | PTSharpCore/Function.cs:61-70 | on the box `[0, 2]^3` the as-written formula maps the upper corner to (2, 2), outside the unit square, where the intended formula gives (1, 1) |
| FunctionShapes.UV | PTSharpCore/Function.cs:61-70 | the intended coordinates `(p.x - x1) / (x2 - x1)` lie in the `z = 0` plane |
| FunctionShapes.UVRange | PTSharpCore/Function.cs:61-70 | with the intended formula, points of the box get coordinates in the unit square, from (0, 0) at the lower corner to (1, 1) at the upper one |
| FunctionShapes.MaterialAt | PTSharpCore/Function.cs:72-75 | the shape's material for every point |
| FunctionShapes.NormalAt | PTSharpCore/Function.cs:77-85 | the central-difference normal has unit length and points up (`z > 0`) |
| Harmonics.ShFunc | PTSharpCore/SH.cs:251-360 | a basis function exists exactly for `0 <= l <= 4` and `-l <= m <= l`; every other pair gives none |
| Harmonics.Parity | PTSharpCore/SH.cs:103-249 | every one of the 25 basis functions has the parity of its degree: `Y(-d) = Y(d)` for even `l` and `-Y(d)` for odd `l` |
| Harmonics.NewSphericalHarmonic | PTSharpCore/SH.cs:14-22 | the two materials are stored and the harmonic is the basis function of `(l, m)` |
| Harmonics.BoundingBox | PTSharpCore/SH.cs:29-45 | all three variants give the well-formed cube `[-1, 1]^3`, which holds the origin |
| Harmonics.Intersect | PTSharpCore/SH.cs:47-55 | a hit exactly when the mesh reports one, at the mesh's distance and with this shape; otherwise the miss record |
| Harmonics.UV | PTSharpCore/SH.cs:57-60 | the zero vector for every point |
| Harmonics.MaterialAt | PTSharpCore/SH.cs:62-73 | the negative material where the harmonic in the point's direction is negative, the positive one where it is zero or positive, and the positive one at the origin, where the source's NaN is not below zero |
| Harmonics.EvaluateRadial | PTSharpCore/SH.cs:93-101 | at distance `k > 0` along a unit direction `d`, `Evaluate` is `k - |Y(d)|`, so it is zero exactly at `k = |Y(d)|`: the surface is the polar plot of `|Y|` |
| Harmonics.ScaledUnit | PTSharpCore/SH.cs:88-101 | a unit direction scaled by `k > 0` has length `k` and normalises back to the direction |
| KdTreeSpec.InsertPermutes | PTSharpCore/Tree.cs:243-245 | one insertion step of the sort adds the value and keeps all others |
| KdTreeSpec.InsertSorted | PTSharpCore/Tree.cs:243-245 | one insertion step keeps an ascending list ascending |
| KdTreeSpec.SortSorts | PTSharpCore/Tree.cs:243-245 | `List.Sort` on doubles gives an ascending permutation of the list |
| KdTreeSpec.SortedUnique | PTSharpCore/Tree.cs:243-247 | two ascending lists with the same elements are equal, so the median does not depend on how the list was sorted |
| KdTreeSpec.Median | PTSharpCore/Tree.cs:148-166 | 0 for an empty list, the middle element of an odd-length list and the mean of the two middle elements of an even-length one; of a sorted list it is at least every element of the lower half and at most every element of the upper half |
| KdTreeSpec.RoutedProperties | PTSharpCore/Tree.cs:197-219 | each side holds exactly the shapes whose box reaches the plane from that side, neither side is longer than the node's list, and a shape with a well-formed box goes to at least one side |
| KdTreeSpec.Score | PTSharpCore/Tree.cs:168-195 | the score is the size of the larger side |
| KdTreeSpec.Threshold | PTSharpCore/Tree.cs:248 | `(int)(n * 0.85)` is the truncation of `17 n / 20`, which is below `n` for `n >= 8` |
| KdTreeSpec.Better | PTSharpCore/Tree.cs:252-274 | the best score never grows |
| KdTreeSpec.ChooseProperties | PTSharpCore/Tree.cs:228-279 | the node stays a leaf exactly when no median split scores below the threshold; otherwise the chosen axis has the smallest score, the earlier axis winning a tie, and its point and score are that axis's median and score |
| KdTreeSpec.ChooseShrinks | PTSharpCore/Tree.cs:248-285 | a chosen split leaves each child with fewer shapes than the node, so `Split` terminates |
| KdTreeSpec.BuildShape | PTSharpCore/Tree.cs:221-289 | nodes with fewer than 8 shapes are leaves, a leaf keeps its shapes, and an internal node scores below the threshold and has the two sides' trees as children |
| KdTreeSpec.NearestProperties | PTSharpCore/Tree.cs:134-146 | the scan's hit is no farther than any shape's hit, and it is the miss record or the first shape's hit at its distance |
| KdTreeSpec.Sides | PTSharpCore/Tree.cs:77-131 | along one axis, a ray point ahead of the origin and not beyond `tsplit` is on the near child's side of the plane, and one beyond `tsplit` is on the far child's side |
| KdTreeSpec.Placed | PTSharpCore/Tree.cs:77-131 | a shape hit ahead of the origin inside its box was routed to the near child if the hit is not beyond `tsplit`, and to the far child if it is not before `tsplit` |
| KdTreeSpec.BuildPartitioned | PTSharpCore/Tree.cs:221-289 | the tree `Split` builds routes every shape as `Partition` does, at every node |
| KdTreeSpec.HoldsOwn | PTSharpCore/Tree.cs:197-219 | a routing tree holds only shapes of its own list |
| KdTreeSpec.QuerySound | PTSharpCore/Tree.cs:70-132 | the traversal returns the miss record or the hit, below `INF`, of a shape held by the tree |
| KdTreeSpec.QueryComplete | PTSharpCore/Tree.cs:70-132 | for a shape whose hit lies ahead of the origin, in its box and within `[tmin, tmax]`, the traversal returns a hit no farther than that shape's |
| KdTreeSpec.TreeMatchesBruteForce | PTSharpCore/Tree.cs:24-43 | when every hit lies ahead of the origin and inside its shape's box, the tree over the shapes, with its root box, returns a hit exactly as near as the scan over all shapes, and that hit is the miss record or some shape's hit |
| KdTree.Node.NewNode | PTSharpCore/Tree.cs:65-68 | a valid leaf over the given shapes |
| KdTree.Node.IntersectShapes | PTSharpCore/Tree.cs:134-146 | the loop computes the scan `Nearest` over the node's shapes |
| KdTree.Node.SplitPlane | PTSharpCore/Tree.cs:72-88 | `tsplit` is the IEEE quotient at the plane and `leftFirst` the near-side test |
| KdTree.Node.Intersect | PTSharpCore/Tree.cs:70-132 | the recursive traversal over the node's objects returns exactly `Query` of the tree value the node stands for |
| KdTree.Node.PartitionScore | PTSharpCore/Tree.cs:168-195 | the counting loop returns `Score`, the size of the larger side |
| KdTree.Node.Partition | PTSharpCore/Tree.cs:197-219 | the loop returns the shapes of each side in their order, `Routed` |
| KdTree.Node.CoordinateLists | PTSharpCore/Tree.cs:228-241 | the three lists hold each box's lower and upper coordinate along X, Y and Z, in shape order |
| KdTree.Node.SelectSplit | PTSharpCore/Tree.cs:228-279 | the selected axis, point and score are `Choose`'s |
| KdTree.Node.Split | PTSharpCore/Tree.cs:221-289 | in place, the leaf becomes a valid node over fresh children that stands for `Build` of its shapes |
| KdTree.Node.SplitAt | PTSharpCore/Tree.cs:281-288 | the node becomes the parent of two fresh valid children built and split from the two sides |
| KdTree.Node.NewChild | PTSharpCore/Tree.cs:284-287 | a fresh valid node standing for `Build` of its shapes |
| KdTree.Node.Attach | PTSharpCore/Tree.cs:282-288 | the node becomes a valid internal node over the two children, its list dropped, its footprint theirs plus itself |
| KdTree.Tree.NewTree | PTSharpCore/Tree.cs:24-31 | a valid tree whose box is `BoxForShapes` and whose root stands for `Build` of all shapes |
| KdTree.Tree.Intersect | PTSharpCore/Tree.cs:33-43 | the result is `TreeQuery` of the root box and the built tree; when every hit lies ahead of the origin and in its box it is exactly as near as the nearest hit over all shapes |
| Buffers.Accumulate | PTSharpCore/Buffer.cs:121-132 | feeding `n` samples to a fresh pixel leaves a count of `n`, which keeps every later step defined; the mean and deviations it reaches are stated by `AccumulateSums` and `MeanAndDeviations` |
| Buffers.UpdateMean | PTSharpCore/Buffer.cs:129-130 | after a later sample the new mean `M'` satisfies `M' n = M (n - 1) + s`, channel by channel |
| Buffers.UpdateDeviation | PTSharpCore/Buffer.cs:129-131 | after a later sample `V` grows by `(s - M)(s - M')`, channel by channel |
| Buffers.UpdateIncrement | PTSharpCore/Buffer.cs:129-131 | that growth is `(s - M)^2 (n - 1) / n`, a square scaled by a positive factor |
| Buffers.UpdateKeepsNonNegative | PTSharpCore/Buffer.cs:121-132 | an update never makes a non-negative `V` negative and keeps the count non-negative |
| Buffers.AccumulateSums | PTSharpCore/Buffer.cs:121-132 | after feeding samples from a fresh pixel, `n M` is their sum and `V + n M^2` the sum of their squares |
| Buffers.DeviationsExpand | PTSharpCore/Buffer.cs:131 | the sum of squared deviations from any colour `c` is `Q - 2 c S + n c^2` |
| Buffers.MeanAndDeviations | PTSharpCore/Buffer.cs:121-142 | after feeding samples from a fresh pixel, `M` is exactly their sample mean and `V` exactly the sum of their squared deviations from it, so `Variance` is the sample variance |
| Buffers.DeviationsNonNegative | PTSharpCore/Buffer.cs:136-145 | a sum of squared deviations is non-negative in every channel |
| Buffers.AccumulateNonNegative | PTSharpCore/Buffer.cs:121-145 | every pixel fed from a fresh start has non-negative `V`, so its standard deviation is defined |
| Buffers.UpdateSame | PTSharpCore/Buffer.cs:121-132 | a later sample equal to the mean of a pixel with zero `V` changes only the count |
| Buffers.ConstantSamples | PTSharpCore/Buffer.cs:121-132 | feeding one colour `n` times gives that colour as the mean and zero `V` |
| Buffers.Pixel.constructor | PTSharpCore/Buffer.cs:114-119 | the count, mean and deviation sum are stored |
| Buffers.Pixel.AddSample | PTSharpCore/Buffer.cs:121-132 | the pixel's new statistics are one Welford step of the old ones, and the count goes up by one |
| Buffers.Pixel.Color | PTSharpCore/Buffer.cs:134 | the running mean |
| Buffers.Pixel.Variance | PTSharpCore/Buffer.cs:136-143 | black below two samples; otherwise the colour that, scaled by `n - 1`, gives back `V` |
| Buffers.Pixel.StandardDeviation | PTSharpCore/Buffer.cs:145 | for a non-negative `V` and a `Math.Pow` that takes true square roots, a non-negative colour whose square is the variance |
| Buffers.Buffer.FreshPixels | PTSharpCore/Buffer.cs:26-31 | a new array of `n` distinct new pixels with no samples and black mean and `V` |
| Buffers.Buffer.Init | PTSharpCore/Buffer.cs:21-32 | for a non-negative height and size, a valid buffer of the given size whose `width height` pixels are all new and fresh |
| Buffers.Buffer.FromPixels | PTSharpCore/Buffer.cs:34-39 | the size and the given array are stored as they are |
| Buffers.Buffer.NewBuffer | PTSharpCore/Buffer.cs:41-49 | the same buffer as `Init`: valid, of the given size, all pixels new and fresh |
| Buffers.Buffer.Copy | PTSharpCore/Buffer.cs:51-56 | a new buffer of the same size over a new array of `W H` cells holding the same pixel objects in the same places, the rest empty; a valid buffer copies to a valid buffer |
| Buffers.Buffer.AddSample | PTSharpCore/Buffer.cs:58 | the pixel in row `y`, column `x` takes one Welford step and every other pixel keeps its statistics |
| Buffers.Buffer.Samples | PTSharpCore/Buffer.cs:60 | the sample count of the pixel at `y W + x` |
| Buffers.Buffer.Color | PTSharpCore/Buffer.cs:62 | the running mean of the pixel at `y W + x` |
| Buffers.Buffer.Variance | PTSharpCore/Buffer.cs:64 | the variance of that pixel: black below two samples, otherwise `V / (n - 1)` |
| Buffers.Buffer.StandardDeviation | PTSharpCore/Buffer.cs:66 | for a non-negative `V`, a non-negative colour whose square is that pixel's variance |
| Scenes.LightsOfProperties | PTSharpCore/Scene.cs:23-32 | the lights are exactly the shapes whose material at the zero vector emits, and there are no more lights than shapes |
| Scenes.Scene.Init | PTSharpCore/Scene.cs:17-21 | no shapes, no lights, no tree, no rays counted |
| Scenes.Scene.Add | PTSharpCore/Scene.cs:23-32 | the shape goes at the end of the shapes, and at the end of the lights exactly when it emits; the tree and ray count are unchanged and the lights stay the emitting shapes |
| Scenes.Scene.Compile | PTSharpCore/Scene.cs:34-44 | a tree exists afterwards; an existing tree is kept, otherwise a fresh one is built over the current shapes; shapes, lights and rays are unchanged |
| Scenes.Scene.RayCount | PTSharpCore/Scene.cs:46-49 | the number of rays traced so far |
| Scenes.Increment | PTSharpCore/Scene.cs:53 | `rays++` on a 32-bit `int`: the result stays in the `int` range, is one more below `int.MaxValue`, wraps to `int.MinValue` from it, and is congruent to `n + 1` modulo 2^32 |
| Scenes.Scene.Intersect | PTSharpCore/Scene.cs:51-55 | the ray count takes one 32-bit increment (`Increment`) and the answer is the tree's traversal; when the indexed shapes' hits lie ahead of the origin and in their boxes, it is as near as the nearest of their hits |
| PoissonGrids.CloseIff | PTSharpCore/Poisson.cs:44 | for a non-negative radius, `sqrt(dx^2 + dy^2) < r` holds exactly when `dx^2 + dy^2 < r^2` |
| PoissonGrids.BoundaryDoesNotBlock | PTSharpCore/Poisson.cs:44 | a stored point at distance exactly `r` does not block: the test is strict |
| PoissonGrids.NothingCloseBelowZero | PTSharpCore/Poisson.cs:44 | with a radius of zero or less no point is ever too close |
| PoissonGrids.Poisson.constructor | PTSharpCore/Poisson.cs:12-17 | the radius, cell size and dictionary are stored |
| PoissonGrids.Poisson.NewPoissonGrid | PTSharpCore/Poisson.cs:19-23 | an empty grid whose cell size `r / sqrt 2` makes a cell's diagonal `r`; the size is positive exactly when `r` is, and then the grid is valid |
| PoissonGrids.Poisson.Normalize | PTSharpCore/Poisson.cs:25-30 | the cell key has integral `x` and `y`, the floors of `v.x / size` and `v.y / size`, and zero `z` |
| PoissonGrids.Poisson.SameCellClose | PTSharpCore/Poisson.cs:25-44 | two points with the same cell are strictly closer than the diagonal `r` |
| PoissonGrids.Poisson.Insert | PTSharpCore/Poisson.cs:32-53 | the point is accepted exactly when no point stored in the 5 x 5 cells around its cell is strictly closer than `r`; an accepted point is stored under its cell, a refused one changes nothing; on a valid grid an accepted point's cell was empty, so nothing is overwritten, and the grid stays valid |

## Left out

- Concurrency:
  - The parallel renderer, its shared random generator and the thread-safe random class are not part of this model.
  - The `tsplit` and `leftFirst` fields that `Node.Intersect` writes are shared between threads in the source. Here they are locals of the traversal, which gives the same sequential result.
- Floating point:
  - IEEE rounding, signed zero and overflow are not modelled; doubles are reals.
  - Infinities and NaN appear only in the slab tests and the split-plane distance. Everywhere else an input on which the source divides by zero, or normalises the zero vector, and so computes NaN is excluded by a precondition. These are:
    - `Vectors.Normalize` of the zero vector, `Vectors.Div` and `Vectors.DivScalar` by zero, and `Colours.Div`/`DivScalar` by zero;
    - `Vectors.SinT2`, `Vectors.Refract` and `Vectors.Reflectance` (and so `Rays.Refract`/`Reflectance`) with `n2 = 0`;
    - `Bounces.Bounce` and `Bounces.BounceIntended` outside `Bounces.Defined`: a material index of 0, or a Fresnel reflectance whose denominators vanish;
    - `Cubes.UV` of a cube flat in `x` or `z`;
    - `FunctionShapes.UVAsWritten` with a box corner at `x = 0` or `y = 0`, and `FunctionShapes.UV` of a box flat in `x` or `y`;
    - `Triangles.Triangle.Barycentric`, `UV` and the lemmas about them for a degenerate triangle (zero Gram determinant);
    - `Harmonics.EvaluateHarmonic` and `Harmonics.Evaluate` at the origin; `Harmonics.MaterialAt` does handle it;
    - `Matrices.MulDirection` and `Matrices.MulRay` for a direction that the matrix maps to zero;
    - `Cylinders.NormalAt` on the cylinder's axis and `Spheres.NormalAt` at the centre;
    - `Planes.NewPlane` with a zero normal;
    - `PoissonGrids.Poisson.Normalize` and `Insert` with cell size 0;
    - `Buffers.Pixel.AddSample` and `Buffers.Buffer.AddSample` on a pixel whose count is -1, which the increment takes to 0 before dividing by it.
- Cubes.CubeMesh: returns the twelve triangles that the source hands to `Mesh.NewMesh`. The mesh itself is not part of this model. A cube flat on some axis is excluded, because its triangles would be degenerate and `NewTriangle` requires non-degenerate ones.
- Triangles.Triangle.NewTriangle: requires a non-degenerate triangle, as do `FixNormals`, `Normal` and `FaceNormal`. The source accepts degenerate faces, as the OBJ loader can produce them, and gives them NaN normals. Such a triangle is still modelled by `Intersect`, and `CoincidentNeverHit` proves it is never hit.
- Library functions and randomness are parameters:
  - `Math.Sqrt`, `Math.Pow`, `Math.Atan2` and `Math.Log`;
  - the uniform draw in `Ray.Bounce`;
  - `Ray.ConeBounce`, `Ray.WeightedBounce` and `Vector.RandomUnitVector`;
  - texture sampling (`ITexture.Sample`);
  - the spherical-harmonic mesh's ray distance, since `Mesh` and the marching-cubes code are not part of this model.
- `Math.Pow(x, 2)` in the Poisson distance test is modelled as `x * x`.
- Int widths:
  - The 32-bit product `w * h` in `Buffer` is unbounded here. A negative product, for which the pixel allocation throws, is excluded. `Buffers.Buffer.Init` also excludes a negative height, for which the allocation of the image bytes throws. `Buffers.Buffer.NewBuffer` allocates no image bytes and needs only the product.
  - The pixel sample count `Pixel.Samples` is unbounded here. In the source it wraps after 2^31 - 1 samples of one pixel. The scene's ray counter does wrap, as `Scenes.Increment` states.
- Out of range and null accesses:
  - A `Buffer.AddSample` outside the array is excluded by a precondition.
  - So is a `Copy` of an array longer than `W H`, where `Array.Copy` throws.
  - So is `Hit.Info` on a hit with neither a shape nor cached info, which dereferences null.
- Scenes.Scene.Intersect: requires a compiled scene (`tree != null`). The source increments the ray counter and then dereferences the null tree; the renderer compiles the scene before every render.
- Harmonics.NewSphericalHarmonic: requires a supported `(l, m)`. For any other pair the source stores a null delegate and fails at the first evaluation.
- `Poisson.PoissonDisc` draws random points and uses trigonometry. It also reads `active[index + 1]`, out of range at the last index, and never removes from `active`.
- `newPoissonGrid` is an instance method of the source that ignores its receiver; it is a static method here.
- Bounces.Bounce: returns the reflect decision, given by `Bounces.Reflects`, as part of its result. It does not store it in the incoming ray's `reflect` field as the source does. No modelled code reads that field, so the model does not capture that the last decision stays on the ray object, where concurrent bounces of one ray overwrite each other's.
- Box partition flags: a box is a value here. `Boxes.Partition` returns the updated box and its flags instead of writing the fields of a shared box.
- Child order: the split node's children are built left then right, as in the source. Their allocation order is not observable in the model.
- `Scene`'s `Color`, `Texture` and `TextureAngle` fields are not used by the modelled operations and are not modelled.
- `Scene.Compile` also calls `Compile` on every shape, every time. The shapes' `Compile` is empty for every modelled shape except the spherical harmonic, whose mesh is not part of this model.
- The console messages the source prints, for example after an unsupported `(l, m)`, are not modelled.
- `Buffer.Image`, `PixelList` and `imageBuffer`: bitmap output is not part of this model.
- `Colour.getIntFromColor` and `getIntFromColor64`: rounding conversions and shifts that overflow.
- Colours.Kelvin: the fitted logarithmic curves are computed with `Math.Log` as a parameter, so the contract says nothing about the values they give between the thresholds.
- `Matrix.Inverse` (an unguarded division by the determinant), `Rotate`, `Frustum`, `Orthographic`, `Perspective` and `LookAtMatrix` (trigonometry) are not modelled.
- `Cylinder.NewTransformedCylinder` needs `acos` and `TransformedShape`, which are not part of this model.
- Triangle's interpolated `NormalAt` (normal and bump textures) and `Area` are not modelled.
- The spherical harmonic's `NormalAt` and `Compile` are not modelled.
- `Sphere.MaterialAt`, `Sphere.BoundingBox` and `Hit.Ok` have no contract of their own. Their properties are stated in `Spheres.NewSphere` and `Hits.NoHit`.
- The source has two identical `Evaluate` versions; one `Harmonics.Evaluate` stands for both.
- `OBJ` loading, the camera, the sampler and the renderer are not part of this model.

## Findings

| source | as written | input that shows it | evidently intended | confidence | as-written member | corrected member |
|---|---|---|---|---|---|---|
| PTSharpCore/Ray.cs:53 | `Interlocked.Exchange(ref n1, n2)` assigns `n2` to `n1` instead of swapping, so inside a material both indices equal the material's index | a ray leaving glass (index 1.5) at a grazing angle: `n1 = n2 = 1.5` gives `sinT2 <= 1`, so total internal reflection never happens and the ray goes straight through | swap the indices so that `n1` is the material's index and `n2` is 1 when inside | not executed | Bounces.IndicesAsWritten, Bounces.AsWrittenNoTotalReflection, Bounces.AsWrittenStraightThrough, Bounces.Bounce, Bounces.BounceDiverges | Bounces.Indices, Bounces.IntendedTotalReflection, Bounces.BounceIntended |
| PTSharpCore/Function.cs:67-68 | `p.x - x1 / x2 - x1` parses as `p.x - (x1 / x2) - x1` | box `[0, 2]^3`, point `(2, 2, 2)`: the result is `(2, 2)`, outside the unit square | `(p.x - x1) / (x2 - x1)`, which gives `(1, 1)` | not executed | FunctionShapes.UVAsWritten, FunctionShapes.UVAsWrittenLeavesSquare | FunctionShapes.UV, FunctionShapes.UVRange |
