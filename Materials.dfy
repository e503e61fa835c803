/** Surface materials (Material.cs): a colour, optional textures and the scalar parameters
    `Bounce` reads. A material is a value: `MaterialAt` works on a copy. */
module Materials {
  import N = Numeric
  import C = Colours
  import opened Vectors

  /** A texture, identified by the image it stands for. Its pixels are not modelled:
      sampling is the parameter `sample`. */
  datatype Texture = Texture(id: nat)

  datatype Material = Material(
    color: C.Colour,
    texture: N.Option<Texture>,
    normalTexture: N.Option<Texture>,
    bumpTexture: N.Option<Texture>,
    glossTexture: N.Option<Texture>,
    bumpMultiplier: real,
    emittance: real,
    index: real,
    gloss: real,
    tint: real,
    reflectivity: real,
    transparent: bool)

  predicate Untextured(m: Material) {
    m.texture.None? && m.normalTexture.None? && m.bumpTexture.None? && m.glossTexture.None?
  }

  /** The constructor with every texture `null`, as all the presets call it. */
  function Plain(color: C.Colour, b: real, e: real, i: real, g: real, tint: real, r: real, t: bool): Material {
    Material(color, N.None, N.None, N.None, N.None, b, e, i, g, tint, r, t)
  }

  /** A preset that does not override the Fresnel reflectance has negative reflectivity. */
  predicate Fresnel(m: Material) {
    m.reflectivity < 0.0
  }

  /** What every preset shares: no textures and a bump multiplier of 1. */
  predicate Preset(m: Material) {
    Untextured(m) && m.bumpMultiplier == 1.0
  }

  /** `DiffuseMaterial(color)`: index 1, no gloss, no emission, Fresnel reflectance. */
  function Diffuse(color: C.Colour): (m: Material)
    ensures Preset(m) && m.bumpMultiplier == 1.0 && Fresnel(m) && m.reflectivity == -1.0 && !m.transparent
    ensures m.color == color && m.emittance == 0.0 && m.index == 1.0 && m.gloss == 0.0 && m.tint == 0.0
  {
    Plain(color, 1.0, 0.0, 1.0, 0.0, 0.0, -1.0, false)
  }

  /** `SpecularMaterial(color, index)`: as diffuse, with the given index. */
  function Specular(color: C.Colour, index: real): (m: Material)
    ensures Preset(m) && m.bumpMultiplier == 1.0 && Fresnel(m) && m.reflectivity == -1.0 && !m.transparent
    ensures m.color == color && m.emittance == 0.0 && m.index == index && m.gloss == 0.0 && m.tint == 0.0
  {
    Plain(color, 1.0, 0.0, index, 0.0, 0.0, -1.0, false)
  }

  /** `GlossyMaterial(color, index, gloss)`: as specular, with the given gloss. */
  function Glossy(color: C.Colour, index: real, gloss: real): (m: Material)
    ensures Preset(m) && m.bumpMultiplier == 1.0 && Fresnel(m) && m.reflectivity == -1.0 && !m.transparent
    ensures m.color == color && m.emittance == 0.0 && m.index == index && m.gloss == gloss && m.tint == 0.0
  {
    Plain(color, 1.0, 0.0, index, gloss, 0.0, -1.0, false)
  }

  /** `ClearMaterial(index, gloss)`: black, transparent, untinted. */
  function Clear(index: real, gloss: real): (m: Material)
    ensures Preset(m) && m.bumpMultiplier == 1.0 && Fresnel(m) && m.reflectivity == -1.0 && m.transparent
    ensures m.color == C.Black && m.emittance == 0.0 && m.index == index && m.gloss == gloss && m.tint == 0.0
  {
    Plain(C.Colour(0.0, 0.0, 0.0), 1.0, 0.0, index, gloss, 0.0, -1.0, true)
  }

  /** `TransparentMaterial(color, index, gloss, tint)`: transparent with the given tint. */
  function Transparent(color: C.Colour, index: real, gloss: real, tint: real): (m: Material)
    ensures Preset(m) && m.bumpMultiplier == 1.0 && Fresnel(m) && m.reflectivity == -1.0 && m.transparent
    ensures m.color == color && m.emittance == 0.0 && m.index == index && m.gloss == gloss && m.tint == tint
  {
    Plain(color, 1.0, 0.0, index, gloss, tint, -1.0, true)
  }

  /** `MetallicMaterial(color, gloss, tint)`: a metal always reflects: its reflectivity is 1
      and overrides the Fresnel term. */
  function Metallic(color: C.Colour, gloss: real, tint: real): (m: Material)
    ensures Preset(m) && m.bumpMultiplier == 1.0 && !Fresnel(m) && m.reflectivity == 1.0 && !m.transparent
    ensures m.color == color && m.emittance == 0.0 && m.index == 1.0 && m.gloss == gloss && m.tint == tint
  {
    Plain(color, 1.0, 0.0, 1.0, gloss, tint, 1.0, false)
  }

  /** `LightMaterial(color, emittance)`: the only preset that emits. */
  function Light(color: C.Colour, emittance: real): (m: Material)
    ensures Preset(m) && m.bumpMultiplier == 1.0 && Fresnel(m) && m.reflectivity == -1.0 && !m.transparent
    ensures m.color == color && m.emittance == emittance && m.index == 1.0 && m.gloss == 0.0 && m.tint == 0.0
  {
    Plain(color, 1.0, emittance, 1.0, 0.0, 0.0, -1.0, false)
  }

  /** How the presets relate: a light is a diffuse surface that emits, a diffuse surface is
      specular with index 1, a specular one is glossy with gloss 0, and a clear material is
      a black transparent one without tint. */
  lemma PresetRelations(color: C.Colour, index: real, gloss: real, e: real)
    ensures Light(color, e) == Diffuse(color).(emittance := e)
    ensures Diffuse(color) == Specular(color, 1.0)
    ensures Specular(color, index) == Glossy(color, index, 0.0)
    ensures Clear(index, gloss) == Transparent(C.Black, index, gloss, 0.0)
    ensures Metallic(color, gloss, 0.0) == Glossy(color, 1.0, gloss).(reflectivity := 1.0)
  {
  }

  /** `Material.MaterialAt(shape, point)`, given the shape's own material `m` at the point
      and the point's texture coordinates `uv`: a colour texture replaces the colour by its
      sample, and a gloss texture replaces the gloss by the mean of its sample's channels. */
  function MaterialAt(m: Material, uv: Vector, sample: (Texture, real, real) -> C.Colour): (r: Material)
    ensures m.texture.Some? ==> r.color == sample(m.texture.value, uv.x, uv.y)
    ensures m.texture.None? ==> r.color == m.color
    ensures m.glossTexture.Some? ==>
      var c := sample(m.glossTexture.value, uv.x, uv.y); r.gloss * 3.0 == c.r + c.g + c.b
    ensures m.glossTexture.None? ==> r.gloss == m.gloss
    ensures r.(color := m.color, gloss := m.gloss) == m
  {
    var m1 := if m.texture.Some? then m.(color := sample(m.texture.value, uv.x, uv.y)) else m;
    if m.glossTexture.Some? then
      var c := sample(m.glossTexture.value, uv.x, uv.y);
      m1.(gloss := (c.r + c.g + c.b) / 3.0)
    else m1
  }

  /** Looking the textures up again changes nothing, and an untextured material is
      returned as it is. */
  lemma MaterialAtIdempotent(m: Material, uv: Vector, sample: (Texture, real, real) -> C.Colour)
    ensures MaterialAt(MaterialAt(m, uv, sample), uv, sample) == MaterialAt(m, uv, sample)
    ensures Untextured(m) ==> MaterialAt(m, uv, sample) == m
  {
  }
}
