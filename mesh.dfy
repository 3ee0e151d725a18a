/**
 * The mesh: its stored geometry and textures, the count of its indices, the
 * binding of its textures to texture units with numbered sampler names, and
 * the vertex-attribute layout its vertex array records, including the
 * per-instance model matrix at locations 7 to 10.
 *
 * Calls into the graphics API are recorded as `GlCall` values; the uniform
 * location lookup of the shader is a function passed in by the caller.
 */
module MeshModel {
  import opened Gl

  const MaxBoneInfluence: nat := 4

  /** Vertex data is opaque to this model; only its layout matters. */
  datatype Vertex = Vertex(
    position: Vec3,
    normal: Vec3,
    texCoords: Vec2,
    tangent: Vec3,
    bitangent: Vec3,
    boneIds: seq<int>,
    weights: seq<real>)

  /** sizeof(Vertex): 14 floats, then 4 ints of bone ids, then 4 float weights. */
  const VertexSize: nat := 14 * FloatSize + MaxBoneInfluence * IntSize + MaxBoneInfluence * FloatSize

  datatype Texture = Texture(id: u32, textureType: string, path: string)

  const Diffuse: string := "texture_diffuse"
  const Specular: string := "texture_specular"
  const Normal: string := "texture_normal"
  const Height: string := "texture_height"

  /** The four texture types that carry a numbered sampler name. */
  predicate IsNumberedType(t: string) {
    t == Diffuse || t == Specular || t == Normal || t == Height
  }

  /** The graphics-API calls issued while binding textures. */
  datatype GlCall =
    | ActiveTexture(unit: nat)          // glActiveTexture(GL_TEXTURE0 + unit)
    | GetUniformLocation(program: u32, name: string)
    | Uniform1i(location: int, value: int)
    | BindTexture2D(texture: u32)

  datatype ComponentType = Float | Int

  /** One glVertexAttribPointer / glVertexAttribIPointer entry with its divisor (0 = per vertex). */
  datatype AttribPointer = AttribPointer(
    location: nat,
    components: nat,
    componentType: ComponentType,
    stride: nat,
    offset: nat,
    divisor: nat)

  // ---------------------------------------------------------------------------
  // Decimal numerals (std::to_string of an unsigned counter)
  // ---------------------------------------------------------------------------

  function DigitChar(d: nat): (c: char)
    requires d < 10
    ensures '0' <= c <= '9'
    ensures c as int - '0' as int == d
  {
    ('0' as int + d) as char
  }

  /** The decimal numeral of `n`, most significant digit first, without leading zeros. */
  function DecimalString(n: nat): (s: string)
    ensures 1 <= |s|
    ensures n < 10 <==> |s| == 1
  {
    if n < 10 then [DigitChar(n)] else DecimalString(n / 10) + [DigitChar(n % 10)]
  }

  /** The number written by a string of decimal digits, most significant first. */
  function DigitsValue(s: string): nat {
    if s == [] then 0
    else
      var d := s[|s| - 1] as int - '0' as int;
      DigitsValue(s[..|s| - 1]) * 10 + (if 0 <= d then d else 0)
  }

  /** The numeral of `n` is made of decimal digits, has no leading zero, and its value is `n`. */
  lemma {:induction false} DecimalStringValue(n: nat)
    ensures var s := DecimalString(n);
            && (forall k :: 0 <= k < |s| ==> '0' <= s[k] <= '9')
            && (s[0] == '0' ==> n == 0)
            && DigitsValue(s) == n
  {
    var s := DecimalString(n);
    if n >= 10 {
      DecimalStringValue(n / 10);
      var p := DecimalString(n / 10);
      assert s == p + [DigitChar(n % 10)];
      assert s[..|s| - 1] == p;
      assert s[0] == p[0];
    }
  }

  /** Distinct numbers have distinct numerals. */
  lemma {:induction false} DecimalStringInjective(a: nat, b: nat)
    requires DecimalString(a) == DecimalString(b)
    ensures a == b
  {
    var sa, sb := DecimalString(a), DecimalString(b);
    if a >= 10 && b >= 10 {
      assert sa[..|sa| - 1] == DecimalString(a / 10);
      assert sb[..|sb| - 1] == DecimalString(b / 10);
      DecimalStringInjective(a / 10, b / 10);
      assert DigitChar(a % 10) == sa[|sa| - 1] == sb[|sb| - 1] == DigitChar(b % 10);
    } else {
      assert DigitChar(a % 10) == sa[|sa| - 1] == sb[|sb| - 1] == DigitChar(b % 10);
    }
  }

  // ---------------------------------------------------------------------------
  // Sampler names: a counter-free specification of BindTextures
  // ---------------------------------------------------------------------------

  /** How many textures in `ts` have type `t`. */
  function CountOfType(ts: seq<Texture>, t: string): (c: nat)
    ensures c <= |ts|
  {
    if ts == [] then 0
    else CountOfType(ts[..|ts| - 1], t) + (if ts[|ts| - 1].textureType == t then 1 else 0)
  }

  /**
   * The sampler uniform name of texture `i`: its type followed by its 1-based
   * rank among the textures of the same type, or just its type when the type
   * is not one of the four numbered ones.
   */
  function SamplerName(ts: seq<Texture>, i: nat): string
    requires i < |ts|
  {
    var t := ts[i].textureType;
    if IsNumberedType(t) then t + DecimalString(CountOfType(ts[..i], t) + 1) else t
  }

  /** The calls issued for texture `i`: select unit i, look up its sampler, set it to i if found, bind. */
  function TextureStep(ts: seq<Texture>, i: nat, program: u32, location: (u32, string) -> int): seq<GlCall>
    requires i < |ts|
  {
    var name := SamplerName(ts, i);
    var loc := location(program, name);
    [ActiveTexture(i), GetUniformLocation(program, name)]
    + (if loc != -1 then [Uniform1i(loc, i)] else [])
    + [BindTexture2D(ts[i].id)]
  }

  /** The calls issued for the first `n` textures, in order. */
  function TextureCalls(ts: seq<Texture>, n: nat, program: u32, location: (u32, string) -> int): seq<GlCall>
    requires n <= |ts|
  {
    if n == 0 then [] else TextureCalls(ts, n - 1, program, location) + TextureStep(ts, n - 1, program, location)
  }

  lemma {:induction false} CountOfTypeSnoc(ts: seq<Texture>, i: nat, t: string)
    requires i < |ts|
    ensures CountOfType(ts[..i + 1], t) == CountOfType(ts[..i], t) + (if ts[i].textureType == t then 1 else 0)
  {
    assert ts[..i + 1][..i] == ts[..i];
  }

  lemma {:induction false} CountOfTypeAppend(a: seq<Texture>, b: seq<Texture>, t: string)
    ensures CountOfType(a + b, t) == CountOfType(a, t) + CountOfType(b, t)
    decreases |b|
  {
    if b == [] {
      assert a + b == a;
    } else {
      assert (a + b)[..|a + b| - 1] == a + b[..|b| - 1];
      CountOfTypeAppend(a, b[..|b| - 1], t);
    }
  }

  lemma {:induction false} CountOfTypeMonotone(ts: seq<Texture>, i: nat, j: nat, t: string)
    requires i <= j <= |ts|
    ensures CountOfType(ts[..i], t) <= CountOfType(ts[..j], t)
    decreases j - i
  {
    if i < j {
      CountOfTypeSnoc(ts, j - 1, t);
      CountOfTypeMonotone(ts, i, j - 1, t);
    }
  }

  /**
   * The per-type counters are independent: inserting a texture of another type
   * anywhere before texture `i` does not change texture `i`'s sampler name.
   */
  lemma {:induction false} CountersIndependent(ts: seq<Texture>, i: nat, j: nat, x: Texture)
    requires i < |ts| && j <= i
    requires x.textureType != ts[i].textureType
    ensures var ts' := ts[..j] + [x] + ts[j..];
            i + 1 < |ts'| && ts'[i + 1] == ts[i] && SamplerName(ts', i + 1) == SamplerName(ts, i)
  {
    var ts' := ts[..j] + [x] + ts[j..];
    var t := ts[i].textureType;
    assert ts'[i + 1] == ts[i];
    InsertOtherTypeKeepsCount(ts, i, j, x, t);
  }

  lemma {:induction false} InsertOtherTypeKeepsCount(ts: seq<Texture>, i: nat, j: nat, x: Texture, t: string)
    requires j <= i <= |ts| && x.textureType != t
    ensures var ts' := ts[..j] + [x] + ts[j..];
            i + 1 <= |ts'| && CountOfType(ts'[..i + 1], t) == CountOfType(ts[..i], t)
  {
    var ts' := ts[..j] + [x] + ts[j..];
    assert ts'[..i + 1] == ts[..j] + [x] + ts[j..i];
    assert ts[..i] == ts[..j] + ts[j..i];
    CountOfTypeAppend(ts[..j] + [x], ts[j..i], t);
    CountOfTypeAppend(ts[..j], [x], t);
    CountOfTypeAppend(ts[..j], ts[j..i], t);
    assert CountOfType([x], t) == 0 by {
      assert [x][..0] == [];
    }
  }

  /**
   * Two different textures of numbered types never share a sampler name:
   * different types differ in their ninth character, and two textures of the
   * same type get different ranks.
   */
  lemma {:induction false} SamplerNamesDistinct(ts: seq<Texture>, i: nat, j: nat)
    requires i < j < |ts|
    requires IsNumberedType(ts[i].textureType) && IsNumberedType(ts[j].textureType)
    ensures SamplerName(ts, i) != SamplerName(ts, j)
  {
    if ts[i].textureType == ts[j].textureType {
      SameTypeNamesDistinct(ts, i, j);
    } else {
      NumberedTypesDifferAtNinth(ts[i].textureType, ts[j].textureType);
      var ni, nj := SamplerName(ts, i), SamplerName(ts, j);
      assert ni[8] == ts[i].textureType[8] && nj[8] == ts[j].textureType[8];
    }
  }

  /** The four numbered type names are told apart by their ninth character: 'd', 's', 'n', 'h'. */
  lemma NumberedTypesDifferAtNinth(t: string, u: string)
    requires IsNumberedType(t) && IsNumberedType(u) && t != u
    ensures 8 < |t| && 8 < |u| && t[8] != u[8]
  {
  }

  lemma {:induction false} SameTypeNamesDistinct(ts: seq<Texture>, i: nat, j: nat)
    requires i < j < |ts|
    requires IsNumberedType(ts[i].textureType) && ts[j].textureType == ts[i].textureType
    ensures SamplerName(ts, i) != SamplerName(ts, j)
  {
    var t := ts[i].textureType;
    var ci, cj := CountOfType(ts[..i], t) + 1, CountOfType(ts[..j], t) + 1;
    CountOfTypeSnoc(ts, i, t);
    CountOfTypeMonotone(ts, i + 1, j, t);
    var ni, nj := t + DecimalString(ci), t + DecimalString(cj);
    if ni == nj {
      assert DecimalString(ci) == ni[|t|..] == nj[|t|..] == DecimalString(cj);
      DecimalStringInjective(ci, cj);
    }
  }

  /** The calls for the first `m` textures are a prefix of the calls for the first `n`. */
  lemma {:induction false} TextureCallsPrefix(ts: seq<Texture>, m: nat, n: nat, program: u32, location: (u32, string) -> int)
    requires m <= n <= |ts|
    ensures var pre := TextureCalls(ts, m, program, location);
            var all := TextureCalls(ts, n, program, location);
            |pre| <= |all| && all[..|pre|] == pre
    decreases n - m
  {
    if m < n {
      TextureCallsPrefix(ts, m, n - 1, program, location);
      var pre := TextureCalls(ts, m, program, location);
      var mid := TextureCalls(ts, n - 1, program, location);
      assert (mid + TextureStep(ts, n - 1, program, location))[..|pre|] == mid[..|pre|];
    }
  }

  /** The calls for texture `i` sit right after the calls for the textures before it. */
  lemma {:induction false} TextureStepInCalls(ts: seq<Texture>, i: nat, n: nat, program: u32, location: (u32, string) -> int)
    requires i < n <= |ts|
    ensures var o := |TextureCalls(ts, i, program, location)|;
            var step := TextureStep(ts, i, program, location);
            var all := TextureCalls(ts, n, program, location);
            o + |step| <= |all| && all[o..o + |step|] == step
  {
    TextureCallsPrefix(ts, i + 1, n, program, location);
    var pre := TextureCalls(ts, i, program, location);
    var step := TextureStep(ts, i, program, location);
    SliceOfPrefix(TextureCalls(ts, n, program, location), pre, step);
  }

  lemma SliceOfPrefix<T>(all: seq<T>, pre: seq<T>, step: seq<T>)
    requires |pre + step| <= |all| && all[..|pre + step|] == pre + step
    ensures all[|pre|..|pre| + |step|] == step
  {
    assert all[|pre|..|pre| + |step|] == all[..|pre + step|][|pre|..];
  }

  /**
   * Texture `i` is bound to unit `i`: its calls select unit `i`, query the
   * location of its sampler name, set that sampler to `i` exactly when the
   * location is not -1, and end by binding the texture's id.
   */
  lemma TextureBoundToItsUnit(ts: seq<Texture>, i: nat, program: u32, location: (u32, string) -> int)
    requires i < |ts|
    ensures var step := TextureStep(ts, i, program, location);
            var loc := location(program, SamplerName(ts, i));
            && |step| == (if loc != -1 then 4 else 3)
            && step[0] == ActiveTexture(i)
            && step[1] == GetUniformLocation(program, SamplerName(ts, i))
            && (loc != -1 <==> Uniform1i(loc, i) in step)
            && step[|step| - 1] == BindTexture2D(ts[i].id)
  {
  }

  /**
   * In the calls issued for the first `n` textures, the sampler looked up for a
   * texture `i` of a numbered type is its type followed by its 1-based rank
   * among the textures of that type before it.
   */
  lemma NumberedSamplerLookedUp(ts: seq<Texture>, i: nat, n: nat, program: u32, location: (u32, string) -> int)
    requires i < n <= |ts| && IsNumberedType(ts[i].textureType)
    ensures var o := |TextureCalls(ts, i, program, location)|;
            var all := TextureCalls(ts, n, program, location);
            var t := ts[i].textureType;
            o + 1 < |all| && all[o + 1] == GetUniformLocation(program, t + DecimalString(CountOfType(ts[..i], t) + 1))
  {
    TextureStepInCalls(ts, i, n, program, location);
    var o := |TextureCalls(ts, i, program, location)|;
    var step := TextureStep(ts, i, program, location);
    assert TextureCalls(ts, n, program, location)[o + 1] == TextureCalls(ts, n, program, location)[o..o + |step|][1];
  }

  /**
   * In the calls issued for the first `n` textures, the sampler looked up for a
   * texture `i` whose type is none of the four numbered ones is its bare type.
   */
  lemma UnnumberedSamplerLookedUp(ts: seq<Texture>, i: nat, n: nat, program: u32, location: (u32, string) -> int)
    requires i < n <= |ts| && !IsNumberedType(ts[i].textureType)
    ensures var o := |TextureCalls(ts, i, program, location)|;
            var all := TextureCalls(ts, n, program, location);
            o + 1 < |all| && all[o + 1] == GetUniformLocation(program, ts[i].textureType)
  {
    TextureStepInCalls(ts, i, n, program, location);
    var o := |TextureCalls(ts, i, program, location)|;
    var step := TextureStep(ts, i, program, location);
    assert TextureCalls(ts, n, program, location)[o + 1] == TextureCalls(ts, n, program, location)[o..o + |step|][1];
  }

  /**
   * Sampler names are distinct only among the four numbered types: a texture
   * whose type is "texture_diffuse1" gets the name of the first diffuse texture.
   */
  lemma UnnumberedTypeCanCollide()
    ensures var ts := [Texture(1, Diffuse, ""), Texture(2, Diffuse + "1", "")];
            !IsNumberedType(ts[1].textureType) && SamplerName(ts, 0) == SamplerName(ts, 1)
  {
    var ts := [Texture(1, Diffuse, ""), Texture(2, Diffuse + "1", "")];
    var t := Diffuse + "1";
    assert |t| == 16 && t[8] == 'd';
    assert t != Diffuse && t != Normal && t != Height;
    assert Specular[8] == 's';
    assert CountOfType(ts[..0], Diffuse) == 0;
    assert DecimalString(1) == "1";
  }

  // ---------------------------------------------------------------------------
  // Attribute layout recorded by setupMesh
  // ---------------------------------------------------------------------------

  /** Byte size of one attribute of `p` (every component is 4 bytes). */
  function AttribBytes(p: AttribPointer): nat {
    p.components * 4
  }

  /** The per-instance mat4 occupies locations 7..10, one vec4 column each, advanced once per instance. */
  ghost predicate InstanceMatrixLayout(layout: seq<AttribPointer>)
    requires |layout| == 11
  {
    forall j :: 7 <= j < 11 ==>
      layout[j] == AttribPointer(j, 4, Float, Mat4Size, (j - 7) * Vec4Size, 1)
  }

  /** Components of the Vertex fields in declaration order: position, normal, texCoords, tangent, bitangent, bone ids, weights. */
  const VertexFieldComponents: seq<nat> := [3, 3, 2, 3, 3, MaxBoneInfluence, MaxBoneInfluence]

  /**
   * Locations 0..6 are per-vertex attributes, one per Vertex field in
   * declaration order, with the field's component count and type (only the
   * bone ids are integers), tiling a Vertex without gaps or overlap.
   */
  ghost predicate VertexLayout(layout: seq<AttribPointer>)
    requires |layout| == 11
  {
    && (forall j :: 0 <= j < 7 ==> layout[j].location == j && layout[j].stride == VertexSize && layout[j].divisor == 0)
    && (forall j :: 0 <= j < 7 ==> layout[j].components == VertexFieldComponents[j])
    && (forall j :: 0 <= j < 7 ==> layout[j].componentType == (if j == 5 then Int else Float))
    && layout[0].offset == 0
    && (forall j :: 0 <= j < 6 ==> layout[j + 1].offset == layout[j].offset + AttribBytes(layout[j]))
    && layout[6].offset + AttribBytes(layout[6]) == VertexSize
  }

  class Mesh {
    const vertices: seq<Vertex>
    const indices: seq<u32>
    const textures: seq<Texture>
    /** The attribute state recorded in this mesh's vertex array object. */
    var attributes: seq<AttribPointer>

    constructor (vertices: seq<Vertex>, indices: seq<u32>, textures: seq<Texture>)
      ensures this.vertices == vertices && this.indices == indices && this.textures == textures
      ensures |attributes| == 11 && VertexLayout(attributes) && InstanceMatrixLayout(attributes)
    {
      this.vertices := vertices;
      this.indices := indices;
      this.textures := textures;
      new;
      attributes := SetupMesh();
    }

    /** The index count handed to the draw call, as the unsigned int cast of the index vector's size. */
    function IndexCount(): (n: u32)
      ensures n as int <= |indices|
      ensures |indices| < Two32 ==> n as int == |indices|
    {
      (|indices| % Two32) as u32
    }

    /**
     * Binds texture i to unit i and sets its sampler uniform, numbering the
     * samplers of each of the four types with its own counter; finally
     * selects unit 0 again.
     */
    method BindTextures(program: u32, location: (u32, string) -> int) returns (calls: seq<GlCall>)
      ensures calls == TextureCalls(textures, |textures|, program, location) + [ActiveTexture(0)]
    {
      var diffuseNr, specularNr, normalNr, heightNr := 1, 1, 1, 1;
      calls := [];
      for i := 0 to |textures|
        invariant calls == TextureCalls(textures, i, program, location)
        invariant diffuseNr == CountOfType(textures[..i], Diffuse) + 1
        invariant specularNr == CountOfType(textures[..i], Specular) + 1
        invariant normalNr == CountOfType(textures[..i], Normal) + 1
        invariant heightNr == CountOfType(textures[..i], Height) + 1
      {
        CountOfTypeSnoc(textures, i, Diffuse);
        CountOfTypeSnoc(textures, i, Specular);
        CountOfTypeSnoc(textures, i, Normal);
        CountOfTypeSnoc(textures, i, Height);
        var number := "";
        var name := textures[i].textureType;
        if name == Diffuse {
          number := DecimalString(diffuseNr);
          diffuseNr := diffuseNr + 1;
        } else if name == Specular {
          number := DecimalString(specularNr);
          specularNr := specularNr + 1;
        } else if name == Normal {
          number := DecimalString(normalNr);
          normalNr := normalNr + 1;
        } else if name == Height {
          number := DecimalString(heightNr);
          heightNr := heightNr + 1;
        }
        assert name + number == SamplerName(textures, i) by {
          if !IsNumberedType(name) {
            assert name + number == name;
          }
        }
        var loc := location(program, name + number);
        var step := [ActiveTexture(i), GetUniformLocation(program, name + number)];
        if loc != -1 {
          step := step + [Uniform1i(loc, i)];
        }
        step := step + [BindTexture2D(textures[i].id)];
        assert step == TextureStep(textures, i, program, location);
        calls := calls + step;
      }
      calls := calls + [ActiveTexture(0)];
    }

    /** The attribute layout set up for this mesh: seven per-vertex attributes, then the instance matrix. */
    method SetupMesh() returns (layout: seq<AttribPointer>)
      ensures |layout| == 11
      ensures VertexLayout(layout)
      ensures InstanceMatrixLayout(layout)
    {
      layout := [
        AttribPointer(0, 3, Float, VertexSize, 0, 0),                 // position
        AttribPointer(1, 3, Float, VertexSize, 3 * FloatSize, 0),     // normal
        AttribPointer(2, 2, Float, VertexSize, 6 * FloatSize, 0),     // texCoords
        AttribPointer(3, 3, Float, VertexSize, 8 * FloatSize, 0),     // tangent
        AttribPointer(4, 3, Float, VertexSize, 11 * FloatSize, 0),    // bitangent
        AttribPointer(5, 4, Int, VertexSize, 14 * FloatSize, 0),      // bone ids
        AttribPointer(6, 4, Float, VertexSize, 14 * FloatSize + MaxBoneInfluence * IntSize, 0)  // weights
      ];
      ghost var perVertex := layout;
      var stride := Mat4Size;
      for i := 0 to 4
        invariant |layout| == 7 + i
        invariant layout[..7] == perVertex
        invariant forall j :: 7 <= j < 7 + i ==> layout[j] == AttribPointer(j, 4, Float, Mat4Size, (j - 7) * Vec4Size, 1)
      {
        var attribLocation := 7 + i;
        layout := layout + [AttribPointer(attribLocation, 4, Float, stride, Vec4Size * i, 1)];
      }
    }
  }
}
