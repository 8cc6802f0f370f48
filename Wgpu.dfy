/**
 * The self-contained logic of Imaginarium's wgpu back end: the rounding
 * of uniform sizes, the binding and vertex-attribute numbering that
 * `create_shader` and `run_shader` build, the descriptor checks of
 * texture uploads and readbacks, and the pending command encoder that
 * `perform`, `sync` and `drop` pass around.  Device, queue, buffers and
 * pipelines are not modelled; the queue appears only as the ordered log
 * of what is written to it or submitted.
 */
module Wgpu {
  import opened Wrappers

  // ---------------------------------------------------------------- uniform size

  /** The alignment `aligned_size_of_uniform` pads to. */
  const UniformAlign: nat := 256

  /** `aligned_size_of_uniform`: the size of the uniform type rounded up to a multiple of 256. */
  function AlignedSizeOfUniform(size: nat): (r: nat)
    ensures r % UniformAlign == 0
    ensures size <= r < size + UniformAlign
  {
    (size + UniformAlign - 1) / UniformAlign * UniformAlign
  }

  /** No multiple of 256 that holds the type is smaller than the padded size. */
  lemma AlignedIsSmallest(size: nat, m: nat)
    requires m % UniformAlign == 0 && size <= m
    ensures AlignedSizeOfUniform(size) <= m
  {
    var r := AlignedSizeOfUniform(size);
    var a, b := m / UniformAlign, r / UniformAlign;
    assert m == a * UniformAlign && r == b * UniformAlign;
  }

  /** A size that is already a multiple of 256 is not padded. */
  lemma AlignedKeepsMultiples(size: nat)
    requires size % UniformAlign == 0
    ensures AlignedSizeOfUniform(size) == size
  {
    AlignedIsSmallest(size, size);
  }

  // ---------------------------------------------------------------- bindings

  /** The resource kind a bind-group layout entry declares. */
  datatype SlotType = SamplerSlot | TextureSlot

  /** A `BindGroupLayoutEntry`, reduced to its binding number and kind. */
  datatype LayoutEntry = LayoutEntry(binding: nat, ty: SlotType)

  type TextureId = nat

  /** The resource a bind-group entry supplies: the context's default sampler or a texture's view. */
  datatype Resource = DefaultSampler | TextureView(texture: TextureId)

  /** A `BindGroupEntry`, reduced to its binding number and resource. */
  datatype BindEntry = BindEntry(binding: nat, resource: Resource)

  /** The layout `create_shader` declares for `count` input textures. */
  function Layout(count: nat): seq<LayoutEntry>
  {
    [LayoutEntry(0, SamplerSlot)] + seq(count, k requires 0 <= k < count => LayoutEntry(k + 1, TextureSlot))
  }

  /** The bind group `run_shader` builds for its input textures. */
  function BindGroup(inputs: seq<TextureId>): seq<BindEntry>
  {
    [BindEntry(0, DefaultSampler)] + seq(|inputs|, k requires 0 <= k < |inputs| => BindEntry(k + 1, TextureView(inputs[k])))
  }

  /** The sampler sits at binding 0 and input texture `k` at binding `k + 1`; there is one entry more than textures. */
  lemma LayoutNumbering(count: nat)
    ensures |Layout(count)| == count + 1
    ensures Layout(count)[0] == LayoutEntry(0, SamplerSlot)
    ensures forall i :: 0 < i < |Layout(count)| ==> Layout(count)[i] == LayoutEntry(i, TextureSlot)
  {
  }

  /** The bind group numbers its entries the same way, pointing at the textures in input order. */
  lemma BindGroupNumbering(inputs: seq<TextureId>)
    ensures |BindGroup(inputs)| == |inputs| + 1
    ensures BindGroup(inputs)[0] == BindEntry(0, DefaultSampler)
    ensures forall i :: 0 < i < |BindGroup(inputs)| ==> BindGroup(inputs)[i] == BindEntry(i, TextureView(inputs[i - 1]))
  {
  }

  /** Whether a bind-group entry supplies the kind of resource a layout entry declares. */
  predicate Supplies(e: BindEntry, l: LayoutEntry)
  {
    e.binding == l.binding &&
    match l.ty
    case SamplerSlot => e.resource == DefaultSampler
    case TextureSlot => e.resource.TextureView?
  }

  /** Whether a bind group matches a layout entry for entry, with every binding number used once. */
  predicate FitsLayout(group: seq<BindEntry>, layout: seq<LayoutEntry>)
  {
    && |group| == |layout|
    && (forall i :: 0 <= i < |group| ==> Supplies(group[i], layout[i]))
    && (forall i, j :: 0 <= i < j < |group| ==> group[i].binding != group[j].binding)
  }

  /**
   * When `run_shader`'s first check passes (as many inputs as the shader
   * declares), the bind group it builds fits the layout `create_shader` built.
   */
  lemma BindGroupFitsLayout(count: nat, inputs: seq<TextureId>)
    requires |inputs| == count
    ensures FitsLayout(BindGroup(inputs), Layout(count))
  {
    LayoutNumbering(count);
    BindGroupNumbering(inputs);
    var g, l := BindGroup(inputs), Layout(count);
    forall i | 0 <= i < |g| ensures Supplies(g[i], l[i]) && g[i].binding == i {
      if i > 0 {
        assert g[i] == BindEntry(i, TextureView(inputs[i - 1]));
        assert l[i] == LayoutEntry(i, TextureSlot);
      }
    }
  }

  /** The layout-entry list of `create_shader`: the sampler, then one entry per input texture. */
  method LayoutEntries(count: nat) returns (entries: seq<LayoutEntry>)
    ensures entries == Layout(count)
  {
    entries := [LayoutEntry(0, SamplerSlot)];
    var index := 0;
    while index < count
      invariant 0 <= index <= count
      invariant entries == [LayoutEntry(0, SamplerSlot)] + seq(index, k requires 0 <= k < index => LayoutEntry(k + 1, TextureSlot))
    {
      entries := entries + [LayoutEntry(index + 1, TextureSlot)];
      index := index + 1;
    }
  }

  /** The bind-entry list of `run_shader`: the default sampler, then each input texture's view. */
  method BindEntries(inputs: seq<TextureId>) returns (entries: seq<BindEntry>)
    ensures entries == BindGroup(inputs)
  {
    entries := [BindEntry(0, DefaultSampler)];
    var index := 0;
    while index < |inputs|
      invariant 0 <= index <= |inputs|
      invariant entries == [BindEntry(0, DefaultSampler)] + seq(index, k requires 0 <= k < index => BindEntry(k + 1, TextureView(inputs[k])))
    {
      entries := entries + [BindEntry(index + 1, TextureView(inputs[index]))];
      index := index + 1;
    }
  }

  // ---------------------------------------------------------------- vertex attributes

  /** The vertex formats the model knows the size of. */
  datatype VertexFormat = Float32 | Float32x2 | Float32x3 | Float32x4

  /** `VertexFormat::size`, in bytes. */
  function FormatSize(f: VertexFormat): nat
  {
    match f
    case Float32 => 4
    case Float32x2 => 8
    case Float32x3 => 12
    case Float32x4 => 16
  }

  /** A `VertexAttribute`: where the attribute starts in a vertex, its format, and its shader location. */
  datatype VertexAttribute = VertexAttribute(offset: nat, format: VertexFormat, shaderLocation: nat)

  /** The summed sizes of a list of formats. */
  function TotalSize(formats: seq<VertexFormat>): nat
  {
    if formats == [] then 0 else TotalSize(formats[..|formats| - 1]) + FormatSize(formats[|formats| - 1])
  }

  /** The attributes `create_shader` derives from a vertex layout. */
  function Attributes(formats: seq<VertexFormat>): seq<VertexAttribute>
  {
    seq(|formats|, i requires 0 <= i < |formats| => VertexAttribute(TotalSize(formats[..i]), formats[i], i))
  }

  /** The vertex layout of the unit rectangle every shader draws: two `Float32x2` attributes. */
  function RectVertexLayout(): seq<VertexFormat>
  {
    [Float32x2, Float32x2]
  }

  /** The attribute loop of `create_shader`, which accumulates `vertex_stride` as it goes. */
  method VertexAttributes(formats: seq<VertexFormat>) returns (attributes: seq<VertexAttribute>, stride: nat)
    ensures attributes == Attributes(formats)
    ensures stride == TotalSize(formats)
  {
    attributes := [];
    stride := 0;
    var index := 0;
    while index < |formats|
      invariant 0 <= index <= |formats|
      invariant stride == TotalSize(formats[..index])
      invariant attributes == Attributes(formats[..index])
    {
      assert formats[..index + 1][..index] == formats[..index];
      assert Attributes(formats[..index + 1]) == attributes + [VertexAttribute(stride, formats[index], index)] by {
        forall i | 0 <= i < index ensures formats[..index + 1][..i] == formats[..index][..i] { }
      }
      attributes := attributes + [VertexAttribute(stride, formats[index], index)];
      stride := stride + FormatSize(formats[index]);
      index := index + 1;
    }
    assert formats[..index] == formats;
  }

  /** The total size of a prefix grows with the prefix. */
  lemma {:induction false} TotalSizeMonotone(formats: seq<VertexFormat>, i: nat, j: nat)
    requires i <= j <= |formats|
    ensures TotalSize(formats[..i]) <= TotalSize(formats[..j])
    decreases j - i
  {
    if i < j {
      TotalSizeMonotone(formats, i, j - 1);
      assert formats[..j][..j - 1] == formats[..j - 1];
    }
  }

  /**
   * Attribute `i` sits at shader location `i`; the first starts at 0,
   * each ends where the next begins, none overlaps a later one, and the
   * last ends at the stride.
   */
  lemma {:induction false} AttributesPacked(formats: seq<VertexFormat>)
    ensures |Attributes(formats)| == |formats|
    ensures forall i :: 0 <= i < |formats| ==> Attributes(formats)[i].shaderLocation == i && Attributes(formats)[i].format == formats[i]
    ensures |formats| > 0 ==> Attributes(formats)[0].offset == 0
    ensures forall i :: 0 <= i < |formats| - 1 ==>
              Attributes(formats)[i + 1].offset == Attributes(formats)[i].offset + FormatSize(formats[i])
    ensures forall i, j :: 0 <= i < j < |formats| ==>
              Attributes(formats)[i].offset + FormatSize(formats[i]) <= Attributes(formats)[j].offset
    ensures |formats| > 0 ==> Attributes(formats)[|formats| - 1].offset + FormatSize(formats[|formats| - 1]) == TotalSize(formats)
  {
    var a := Attributes(formats);
    if |formats| > 0 {
      assert formats[..0] == [];
      assert formats[..|formats|] == formats;
    }
    forall i | 0 <= i < |formats| ensures TotalSize(formats[..i + 1]) == a[i].offset + FormatSize(formats[i]) {
      assert formats[..i + 1][..i] == formats[..i];
    }
    forall i, j | 0 <= i < j < |formats| ensures a[i].offset + FormatSize(formats[i]) <= a[j].offset {
      TotalSizeMonotone(formats, i + 1, j);
    }
  }

  /** The unit rectangle's two attributes start at 0 and 8, and a vertex is 16 bytes. */
  lemma RectVertexAttributes()
    ensures Attributes(RectVertexLayout()) ==
            [VertexAttribute(0, Float32x2, 0), VertexAttribute(8, Float32x2, 1)]
    ensures TotalSize(RectVertexLayout()) == 16
  {
    var f := RectVertexLayout();
    assert f[..0] == [] && f[..1] == [Float32x2] && f[..1][..0] == [];
    assert f[..|f| - 1] == [Float32x2];
    assert TotalSize([]) == 0;
    assert TotalSize([Float32x2]) == 8;
    assert TotalSize(f) == 16;
    var a := Attributes(f);
    assert a[0] == VertexAttribute(0, Float32x2, 0);
    assert a[1] == VertexAttribute(8, Float32x2, 1);
  }

  // ---------------------------------------------------------------- shaders

  /** What the model keeps of a `Shader`: its declared counts, its layout and its vertex input. */
  datatype Shader = Shader(inputTextureCount: nat, pushConstantSize: nat, layout: seq<LayoutEntry>,
                           vertexLayout: seq<VertexFormat>, attributes: seq<VertexAttribute>, vertexStride: nat)

  /** `create_shader`, without the GPU objects: the bind-group layout and the vertex buffer layout. */
  method CreateShader(inputTextureCount: nat, pushConstantSize: nat) returns (s: Shader)
    ensures s.inputTextureCount == inputTextureCount && s.pushConstantSize == pushConstantSize
    ensures s.layout == Layout(inputTextureCount)
    ensures s.vertexLayout == RectVertexLayout()
    ensures s.attributes == Attributes(s.vertexLayout) && s.vertexStride == TotalSize(s.vertexLayout)
  {
    var layout := LayoutEntries(inputTextureCount);
    var vertexLayout := RectVertexLayout();
    var attributes, stride := VertexAttributes(vertexLayout);
    s := Shader(inputTextureCount, pushConstantSize, layout, vertexLayout, attributes, stride);
  }

  // ---------------------------------------------------------------- textures and images

  /** An image descriptor; it is only ever compared as a whole. */
  datatype ImageDesc = ImageDesc(width: nat, height: nat, colorFormat: nat)

  /** The value of an `Image`: its descriptor and its bytes. */
  datatype ImageData = ImageData(desc: ImageDesc, bytes: seq<bv8>)

  /** `anyhow::Result<()>`, with the error's message. */
  datatype Result<T> = Ok(value: T) | Err(message: string)

  const MismatchMessage: string := "image info mismatch"

  /** `Texture::write`: the texture memory after uploading `image`, or the mismatch error. */
  function Upload(desc: ImageDesc, contents: seq<bv8>, image: ImageData): (r: Result<seq<bv8>>)
  {
    if desc != image.desc then Err(MismatchMessage) else Ok(image.bytes)
  }

  /** `Texture::read`: the image after reading the texture memory back, or the mismatch error. */
  function Readback(desc: ImageDesc, contents: seq<bv8>, image: ImageData): (r: Result<ImageData>)
  {
    if desc != image.desc then Err(MismatchMessage) else Ok(image.(bytes := contents))
  }

  /** Both directions fail exactly when the descriptors differ, and a readback keeps the descriptor. */
  lemma TransfersCheckDesc(desc: ImageDesc, contents: seq<bv8>, image: ImageData)
    ensures Upload(desc, contents, image).Err? <==> desc != image.desc
    ensures Readback(desc, contents, image).Err? <==> desc != image.desc
    ensures Readback(desc, contents, image).Ok? ==> Readback(desc, contents, image).value.desc == image.desc
  {
  }

  /** Reading back what was just uploaded gives the image unchanged. */
  lemma ReadbackAfterUpload(desc: ImageDesc, contents: seq<bv8>, image: ImageData)
    requires Upload(desc, contents, image).Ok?
    ensures Readback(desc, Upload(desc, contents, image).value, image) == Ok(image)
  {
  }

  /** Uploading what was just read back leaves the texture memory as it was. */
  lemma UploadAfterReadback(desc: ImageDesc, contents: seq<bv8>, image: ImageData)
    requires Readback(desc, contents, image).Ok?
    ensures Upload(desc, contents, Readback(desc, contents, image).value) == Ok(contents)
  {
  }

  /** An `Image` buffer, which `Texture::read` overwrites. */
  class Image {
    var desc: ImageDesc
    var bytes: seq<bv8>

    function Data(): ImageData
      reads this
    {
      ImageData(desc, bytes)
    }

    constructor (desc: ImageDesc, bytes: seq<bv8>)
      ensures Data() == ImageData(desc, bytes)
    {
      this.desc := desc;
      this.bytes := bytes;
    }
  }

  /** A `Texture`: its identity, its descriptor, and the contents of its memory on the device. */
  class Texture {
    const id: TextureId
    const desc: ImageDesc
    var contents: seq<bv8>

    constructor (id: TextureId, desc: ImageDesc)
      ensures this.id == id && this.desc == desc && contents == []
    {
      this.id := id;
      this.desc := desc;
      contents := [];
    }

    /** `Texture::write`: check the descriptors, then copy the image's bytes into the texture. */
    method Write(image: Image) returns (r: Result<()>)
      modifies this
      ensures r.Err? <==> Upload(desc, old(contents), image.Data()).Err?
      ensures r.Err? ==> r.message == MismatchMessage && contents == old(contents)
      ensures r.Ok? ==> contents == Upload(desc, old(contents), image.Data()).value
    {
      if desc != image.desc {
        return Err(MismatchMessage);
      }
      contents := image.bytes;
      r := Ok(());
    }

    /** `Texture::read`: check the descriptors, then copy the texture's memory into the image. */
    method Read(image: Image) returns (r: Result<()>)
      modifies image
      ensures r.Err? <==> Readback(desc, contents, old(image.Data())).Err?
      ensures r.Err? ==> r.message == MismatchMessage && image.Data() == old(image.Data())
      ensures r.Ok? ==> image.Data() == Readback(desc, contents, old(image.Data())).value
    {
      if desc != image.desc {
        return Err(MismatchMessage);
      }
      image.bytes := contents;
      r := Ok(());
    }
  }

  // ---------------------------------------------------------------- the pending encoder

  /** A texture as an action names it: its identity and its descriptor. */
  datatype TextureRef = TextureRef(id: TextureId, desc: ImageDesc)

  /** What a command encoder records. */
  datatype Command =
    | RenderPass(output: TextureId, bindings: seq<BindEntry>, pushConstants: seq<bv8>)
    | CopyTextureToBuffer(texture: TextureId)

  /** What reaches the queue, in order: texture writes and submitted command lists. */
  datatype QueueOp = WriteTexture(texture: TextureId) | Submit(commands: seq<Command>)

  /** An `Action` of `perform`; images appear through their descriptors only. */
  datatype Action =
    | RunShader(shader: Shader, inputs: seq<TextureRef>, output: TextureRef, pushConstants: seq<bv8>)
    | ImgToTex(uploads: seq<(ImageDesc, TextureRef)>)
    | TexToImg(readbacks: seq<(TextureRef, ImageDesc)>)

  /** The state `perform` and `sync` change: the pending encoder, if any, and the queue so far. */
  datatype Gpu = Gpu(encoder: Option<seq<Command>>, queue: seq<QueueOp>)

  /** The result of an operation that may panic. */
  datatype Outcome<T> = Done(value: T) | Panic

  /** The commands of the pending encoder, none when there is no encoder. */
  function Pending(encoder: Option<seq<Command>>): seq<Command>
  {
    if encoder.Some? then encoder.value else []
  }

  function Ids(textures: seq<TextureRef>): seq<TextureId>
  {
    seq(|textures|, k requires 0 <= k < |textures| => textures[k].id)
  }

  /** The render pass `run_shader` records, once its two checks pass. */
  function Pass(shader: Shader, inputs: seq<TextureRef>, output: TextureRef, pushConstants: seq<bv8>): Command
  {
    RenderPass(output.id, BindGroup(Ids(inputs)), pushConstants)
  }

  /** The `ImgToTex` loop from the upload at hand on: each pair is checked, then written through the queue. */
  function Uploads(s: Gpu, uploads: seq<(ImageDesc, TextureRef)>): Outcome<Gpu>
    decreases |uploads|
  {
    if uploads == [] then Done(s)
    else if uploads[0].0 != uploads[0].1.desc then Panic
    else Uploads(s.(queue := s.queue + [WriteTexture(uploads[0].1.id)]), uploads[1..])
  }

  /**
   * The `TexToImg` loop from the readback at hand on: each pair is
   * checked, then the pending encoder (or a fresh one) records the copy
   * and is submitted, leaving no encoder pending.
   */
  function Readbacks(s: Gpu, readbacks: seq<(TextureRef, ImageDesc)>): Outcome<Gpu>
    decreases |readbacks|
  {
    if readbacks == [] then Done(s)
    else if readbacks[0].1 != readbacks[0].0.desc then Panic
    else Readbacks(Gpu(None, s.queue + [Submit(Pending(s.encoder) + [CopyTextureToBuffer(readbacks[0].0.id)])]), readbacks[1..])
  }

  /** One action of `perform`. */
  function Step(s: Gpu, a: Action): Outcome<Gpu>
  {
    match a
    case RunShader(shader, inputs, output, pushConstants) =>
      if |inputs| != shader.inputTextureCount || shader.pushConstantSize != |pushConstants| then Panic
      else Done(s.(encoder := Some(Pending(s.encoder) + [Pass(shader, inputs, output, pushConstants)])))
    case ImgToTex(uploads) => Uploads(s, uploads)
    case TexToImg(readbacks) => Readbacks(s, readbacks)
  }

  /** `perform`: the actions in order, stopping at the first panic. */
  function PerformAll(s: Gpu, actions: seq<Action>): Outcome<Gpu>
    decreases |actions|
  {
    if actions == [] then Done(s)
    else match Step(s, actions[0])
      case Panic => Panic
      case Done(t) => PerformAll(t, actions[1..])
  }

  /** `sync`: submit the pending encoder, if any. */
  function Synced(s: Gpu): Gpu
  {
    if s.encoder.Some? then Gpu(None, s.queue + [Submit(s.encoder.value)]) else s
  }

  /** Whether an action trips one of the checks that make `perform` panic. */
  predicate Faulty(a: Action)
  {
    match a
    case RunShader(shader, inputs, _, pushConstants) =>
      |inputs| != shader.inputTextureCount || shader.pushConstantSize != |pushConstants|
    case ImgToTex(uploads) => exists k :: 0 <= k < |uploads| && uploads[k].0 != uploads[k].1.desc
    case TexToImg(readbacks) => exists k :: 0 <= k < |readbacks| && readbacks[k].1 != readbacks[k].0.desc
  }

  /**
   * For a shader whose layout is the one `create_shader` builds, a render
   * pass that gets past `run_shader`'s checks binds a group that fits that
   * layout.
   */
  lemma RunShaderFitsLayout(a: Action)
    requires a.RunShader? && !Faulty(a)
    requires a.shader.layout == Layout(a.shader.inputTextureCount)
    ensures FitsLayout(Pass(a.shader, a.inputs, a.output, a.pushConstants).bindings, a.shader.layout)
  {
    BindGroupFitsLayout(a.shader.inputTextureCount, Ids(a.inputs));
  }

  /** The commands a sequence of queue operations submitted, in order. */
  function Submitted(queue: seq<QueueOp>): seq<Command>
  {
    if queue == [] then []
    else Submitted(queue[..|queue| - 1]) + (if queue[|queue| - 1].Submit? then queue[|queue| - 1].commands else [])
  }

  /** Every command recorded so far: the submitted ones, then the pending ones. */
  function Recorded(s: Gpu): seq<Command>
  {
    Submitted(s.queue) + Pending(s.encoder)
  }

  /** The commands one action records when it does not panic. */
  function Issued(a: Action): seq<Command>
  {
    match a
    case RunShader(shader, inputs, output, pushConstants) => [Pass(shader, inputs, output, pushConstants)]
    case ImgToTex(_) => []
    case TexToImg(readbacks) => seq(|readbacks|, k requires 0 <= k < |readbacks| => CopyTextureToBuffer(readbacks[k].0.id))
  }

  function IssuedAll(actions: seq<Action>): seq<Command>
  {
    if actions == [] then [] else Issued(actions[0]) + IssuedAll(actions[1..])
  }

  lemma SubmittedAppend(queue: seq<QueueOp>, op: QueueOp)
    ensures Submitted(queue + [op]) == Submitted(queue) + (if op.Submit? then op.commands else [])
  {
    assert (queue + [op])[..|queue|] == queue;
  }

  /** A run of uploads panics exactly at a mismatched pair; otherwise it only writes to the queue. */
  lemma {:induction false} UploadsEffect(s: Gpu, uploads: seq<(ImageDesc, TextureRef)>)
    ensures Uploads(s, uploads).Panic? <==> exists k :: 0 <= k < |uploads| && uploads[k].0 != uploads[k].1.desc
    ensures Uploads(s, uploads).Done? ==>
              Uploads(s, uploads).value.encoder == s.encoder && Recorded(Uploads(s, uploads).value) == Recorded(s)
    decreases |uploads|
  {
    if uploads != [] && uploads[0].0 == uploads[0].1.desc {
      var t := s.(queue := s.queue + [WriteTexture(uploads[0].1.id)]);
      UploadsEffect(t, uploads[1..]);
      SubmittedAppend(s.queue, WriteTexture(uploads[0].1.id));
      assert forall k :: 1 <= k < |uploads| ==> uploads[k] == uploads[1..][k - 1];
      if Uploads(t, uploads[1..]).Panic? {
        var k :| 0 <= k < |uploads[1..]| && uploads[1..][k].0 != uploads[1..][k].1.desc;
        assert uploads[k + 1] == uploads[1..][k];
      }
    }
  }

  /**
   * A run of readbacks panics exactly at a mismatched pair; otherwise one
   * readback or more leaves no encoder pending, and the commands recorded
   * gain one copy per readback, after those recorded before.
   */
  lemma ReadbacksEffect(s: Gpu, readbacks: seq<(TextureRef, ImageDesc)>)
    ensures Readbacks(s, readbacks).Panic? <==> exists k :: 0 <= k < |readbacks| && readbacks[k].1 != readbacks[k].0.desc
    ensures Readbacks(s, readbacks).Done? ==>
              && (readbacks != [] ==> Readbacks(s, readbacks).value.encoder.None?)
              && (readbacks == [] ==> Readbacks(s, readbacks).value == s)
              && Recorded(Readbacks(s, readbacks).value) == Recorded(s) + Issued(TexToImg(readbacks))
  {
    ReadbacksPanicIff(s, readbacks);
    ReadbacksRecord(s, readbacks);
  }

  /** A run of readbacks panics exactly at a mismatched pair. */
  lemma {:induction false} ReadbacksPanicIff(s: Gpu, readbacks: seq<(TextureRef, ImageDesc)>)
    ensures Readbacks(s, readbacks).Panic? <==> exists k :: 0 <= k < |readbacks| && readbacks[k].1 != readbacks[k].0.desc
    decreases |readbacks|
  {
    if readbacks != [] && readbacks[0].1 == readbacks[0].0.desc {
      var c := CopyTextureToBuffer(readbacks[0].0.id);
      var t := Gpu(None, s.queue + [Submit(Pending(s.encoder) + [c])]);
      ReadbacksPanicIff(t, readbacks[1..]);
      assert forall k :: 1 <= k < |readbacks| ==> readbacks[k] == readbacks[1..][k - 1];
      if Readbacks(t, readbacks[1..]).Panic? {
        var k :| 0 <= k < |readbacks[1..]| && readbacks[1..][k].1 != readbacks[1..][k].0.desc;
        assert readbacks[k + 1] == readbacks[1..][k];
      }
    }
  }

  /** Without a panic, readbacks leave no encoder pending and add one copy each to what is recorded. */
  lemma {:induction false} ReadbacksRecord(s: Gpu, readbacks: seq<(TextureRef, ImageDesc)>)
    ensures Readbacks(s, readbacks).Done? ==>
              && (readbacks != [] ==> Readbacks(s, readbacks).value.encoder.None?)
              && (readbacks == [] ==> Readbacks(s, readbacks).value == s)
              && Recorded(Readbacks(s, readbacks).value) == Recorded(s) + Issued(TexToImg(readbacks))
    decreases |readbacks|
  {
    if readbacks != [] && readbacks[0].1 == readbacks[0].0.desc {
      var c := CopyTextureToBuffer(readbacks[0].0.id);
      var t := Gpu(None, s.queue + [Submit(Pending(s.encoder) + [c])]);
      ReadbacksRecord(t, readbacks[1..]);
      SubmittedAppend(s.queue, Submit(Pending(s.encoder) + [c]));
      assert Recorded(t) == Recorded(s) + [c];
      assert Issued(TexToImg(readbacks)) == [c] + Issued(TexToImg(readbacks[1..]));
    }
  }

  /**
   * One action: it panics exactly when it is faulty.  Otherwise a
   * `RunShader` leaves an encoder pending that extends the one there
   * was, an `ImgToTex` leaves the encoder alone, a `TexToImg` with at
   * least one pair leaves none pending; no recorded command is lost or
   * reordered, and the queue only grows.
   */
  lemma StepEffect(s: Gpu, a: Action)
    ensures Step(s, a).Panic? <==> Faulty(a)
    ensures Step(s, a).Done? ==>
              var t := Step(s, a).value;
              && Recorded(t) == Recorded(s) + Issued(a)
              && (a.RunShader? ==> t.encoder.Some? && t.queue == s.queue && Pending(s.encoder) <= t.encoder.value)
              && (a.ImgToTex? ==> t.encoder == s.encoder)
              && (a.TexToImg? && a.readbacks != [] ==> t.encoder.None?)
              && s.queue <= t.queue
  {
    match a
    case RunShader(_, _, _, _) =>
    case ImgToTex(uploads) =>
      UploadsEffect(s, uploads);
      UploadsQueueGrows(s, uploads);
    case TexToImg(readbacks) =>
      ReadbacksEffect(s, readbacks);
      ReadbacksQueueGrows(s, readbacks);
  }

  lemma {:induction false} UploadsQueueGrows(s: Gpu, uploads: seq<(ImageDesc, TextureRef)>)
    ensures Uploads(s, uploads).Done? ==> s.queue <= Uploads(s, uploads).value.queue
    decreases |uploads|
  {
    if uploads != [] && uploads[0].0 == uploads[0].1.desc {
      UploadsQueueGrows(s.(queue := s.queue + [WriteTexture(uploads[0].1.id)]), uploads[1..]);
    }
  }

  lemma {:induction false} ReadbacksQueueGrows(s: Gpu, readbacks: seq<(TextureRef, ImageDesc)>)
    ensures Readbacks(s, readbacks).Done? ==> s.queue <= Readbacks(s, readbacks).value.queue
    decreases |readbacks|
  {
    if readbacks != [] && readbacks[0].1 == readbacks[0].0.desc {
      var c := CopyTextureToBuffer(readbacks[0].0.id);
      ReadbacksQueueGrows(Gpu(None, s.queue + [Submit(Pending(s.encoder) + [c])]), readbacks[1..]);
    }
  }

  /** `perform` panics exactly when one of its actions is faulty. */
  lemma {:induction false} PerformPanicsIff(s: Gpu, actions: seq<Action>)
    ensures PerformAll(s, actions).Panic? <==> exists i :: 0 <= i < |actions| && Faulty(actions[i])
    decreases |actions|
  {
    if actions != [] {
      StepEffect(s, actions[0]);
      if Step(s, actions[0]).Done? {
        PerformPanicsIff(Step(s, actions[0]).value, actions[1..]);
        assert forall i :: 1 <= i < |actions| ==> actions[i] == actions[1..][i - 1];
        if exists i :: 0 <= i < |actions[1..]| && Faulty(actions[1..][i]) {
          var i :| 0 <= i < |actions[1..]| && Faulty(actions[1..][i]);
          assert Faulty(actions[i + 1]);
        }
      }
    }
  }

  /**
   * When `perform` does not panic, the commands recorded afterwards are
   * those recorded before followed by those its actions issued, in order,
   * and the queue has only grown.
   */
  lemma {:induction false} PerformKeepsCommands(s: Gpu, actions: seq<Action>)
    requires PerformAll(s, actions).Done?
    ensures Recorded(PerformAll(s, actions).value) == Recorded(s) + IssuedAll(actions)
    ensures s.queue <= PerformAll(s, actions).value.queue
    decreases |actions|
  {
    if actions != [] {
      StepEffect(s, actions[0]);
      var t := Step(s, actions[0]).value;
      PerformKeepsCommands(t, actions[1..]);
    }
  }

  /** `sync` leaves no encoder pending and loses no recorded command. */
  lemma SyncedEffect(s: Gpu)
    ensures Synced(s).encoder.None?
    ensures Recorded(Synced(s)) == Recorded(s)
    ensures s.queue <= Synced(s).queue
  {
    if s.encoder.Some? {
      SubmittedAppend(s.queue, Submit(s.encoder.value));
    }
  }

  /** The `WgpuContext`, reduced to the pending encoder and the queue it submits to. */
  class Context {
    var encoder: Option<seq<Command>>
    var queue: seq<QueueOp>

    function State(): Gpu
      reads this
    {
      Gpu(encoder, queue)
    }

    /** `WgpuContext::new`: no encoder pending, nothing queued. */
    constructor ()
      ensures State() == Gpu(None, [])
    {
      encoder := None;
      queue := [];
    }

    /** `perform`: the actions in order; `Panic` when one of them panics. */
    method Perform(actions: seq<Action>) returns (r: Outcome<()>)
      modifies this
      ensures r.Panic? <==> PerformAll(old(State()), actions).Panic?
      ensures r.Done? ==> State() == PerformAll(old(State()), actions).value
    {
      var i := 0;
      while i < |actions|
        invariant 0 <= i <= |actions|
        invariant PerformAll(State(), actions[i..]) == PerformAll(old(State()), actions)
      {
        assert actions[i..][1..] == actions[i + 1..];
        var step := Apply(actions[i]);
        if step.Panic? {
          return Panic;
        }
        i := i + 1;
      }
      return Done(());
    }

    /** One action of `perform`. */
    method Apply(a: Action) returns (r: Outcome<()>)
      modifies this
      ensures r.Panic? <==> Step(old(State()), a).Panic?
      ensures r.Done? ==> State() == Step(old(State()), a).value
    {
      match a
      case RunShader(shader, inputs, output, pushConstants) =>
        if encoder.None? {
          encoder := Some([]);
        }
        r := EncodeRunShader(shader, inputs, output, pushConstants);
      case ImgToTex(uploads) =>
        r := WriteTextures(uploads);
      case TexToImg(readbacks) =>
        r := ReadTextures(readbacks);
    }

    /** `run_shader` on the pending encoder: the two checks, then the render pass. */
    method EncodeRunShader(shader: Shader, inputs: seq<TextureRef>, output: TextureRef, pushConstants: seq<bv8>) returns (r: Outcome<()>)
      requires encoder.Some?
      modifies this
      ensures r.Panic? <==> |inputs| != shader.inputTextureCount || shader.pushConstantSize != |pushConstants|
      ensures r.Done? ==> State() == old(State()).(encoder := Some(old(encoder.value) + [Pass(shader, inputs, output, pushConstants)]))
    {
      if |inputs| != shader.inputTextureCount || shader.pushConstantSize != |pushConstants| {
        return Panic;
      }
      var entries := BindEntries(Ids(inputs));
      encoder := Some(encoder.value + [RenderPass(output.id, entries, pushConstants)]);
      r := Done(());
    }

    /** The `ImgToTex` loop. */
    method WriteTextures(uploads: seq<(ImageDesc, TextureRef)>) returns (r: Outcome<()>)
      modifies this
      ensures r.Panic? <==> Uploads(old(State()), uploads).Panic?
      ensures r.Done? ==> State() == Uploads(old(State()), uploads).value
    {
      var j := 0;
      while j < |uploads|
        invariant 0 <= j <= |uploads|
        invariant Uploads(State(), uploads[j..]) == Uploads(old(State()), uploads)
      {
        assert uploads[j..][1..] == uploads[j + 1..];
        var (imageDesc, texture) := uploads[j];
        if imageDesc != texture.desc {
          return Panic;
        }
        queue := queue + [WriteTexture(texture.id)];
        j := j + 1;
      }
      return Done(());
    }

    /** The `TexToImg` loop: each readback takes the pending encoder, or a fresh one, and submits it. */
    method ReadTextures(readbacks: seq<(TextureRef, ImageDesc)>) returns (r: Outcome<()>)
      modifies this
      ensures r.Panic? <==> Readbacks(old(State()), readbacks).Panic?
      ensures r.Done? ==> State() == Readbacks(old(State()), readbacks).value
    {
      var j := 0;
      while j < |readbacks|
        invariant 0 <= j <= |readbacks|
        invariant Readbacks(State(), readbacks[j..]) == Readbacks(old(State()), readbacks)
      {
        assert readbacks[j..][1..] == readbacks[j + 1..];
        var (texture, imageDesc) := readbacks[j];
        if imageDesc != texture.desc {
          return Panic;
        }
        var taken := if encoder.Some? then encoder.value else [];
        encoder := None;
        queue := queue + [Submit(taken + [CopyTextureToBuffer(texture.id)])];
        j := j + 1;
      }
      return Done(());
    }

    /** `sync`: take the pending encoder, if any, and submit it. */
    method Sync()
      modifies this
      ensures State() == Synced(old(State()))
    {
      if encoder.Some? {
        var taken := encoder.value;
        encoder := None;
        queue := queue + [Submit(taken)];
      }
    }

    /** `Drop for WgpuContext`: `Panic` when an encoder is still pending. */
    method Drop() returns (r: Outcome<()>)
      ensures r.Panic? <==> encoder.Some?
    {
      if encoder.Some? {
        return Panic;
      }
      return Done(());
    }
  }
}
