/**
 * The vertex-buffer layout (a list of attribute descriptions and the byte
 * stride they add up to) and the vertex array that hands such a layout to
 * the driver, one attribute pointer per element.
 *
 * Widths are those of the source: element counts, sizes and the stride
 * are `unsigned int` (32 bits, so products and sums wrap modulo 2^32) and
 * the running attribute offset is a `size_t` (64 bits).
 */
module Vertex {
  import opened GLDriver

  const U32: nat := 0x1_0000_0000
  const U64: nat := 0x1_0000_0000_0000_0000

  /** `VertexBufferLayoutElement::GetSize`: bytes per component of a type; 0 for an unknown type. */
  function GetSize(glType: nat): (n: nat)
  {
    if glType == GL_FLOAT then 4
    else if glType == GL_UNSIGNED_INT then 4
    else if glType == GL_UNSIGNED_BYTE then 1
    else 0
  }

  /**
   * The component size is positive exactly for the three types a layout
   * can describe, and it is the byte width of that type: 4 for the 32-bit
   * ones, 1 for the byte.
   */
  lemma SizeOfKnownTypes(glType: nat)
    ensures GetSize(glType) != 0 <==> glType in {GL_FLOAT, GL_UNSIGNED_INT, GL_UNSIGNED_BYTE}
    ensures glType in {GL_FLOAT, GL_UNSIGNED_INT} ==> GetSize(glType) == 4
    ensures glType == GL_UNSIGNED_BYTE ==> GetSize(glType) == 1
  {
  }

  /** `VertexBufferLayoutElement`: component type, component count, normalisation flag. */
  datatype Element = Element(glType: nat, count: nat, normalized: nat)

  /** The bytes one element occupies: the 32-bit product `count * GetSize(type)`. */
  function ByteSize(e: Element): nat
  {
    (e.count * GetSize(e.glType)) % U32
  }

  /** The bytes the elements occupy together, without wrap-around. */
  function SumSizes(es: seq<Element>): nat
  {
    if |es| == 0 then 0 else SumSizes(es[..|es| - 1]) + ByteSize(es[|es| - 1])
  }

  /**
   * The same total accumulated in a variable that wraps modulo `m`: the
   * layout's stride for m = 2^32, the vertex array's offset for m = 2^64.
   */
  function WrappedSum(es: seq<Element>, m: nat): nat
    requires 0 < m
  {
    if |es| == 0 then 0 else (WrappedSum(es[..|es| - 1], m) + ByteSize(es[|es| - 1])) % m
  }

  /** While the total stays below `m` the wrapping accumulator holds the exact total. */
  lemma {:induction false} NoWrap(es: seq<Element>, m: nat)
    requires 0 < m && SumSizes(es) < m
    ensures WrappedSum(es, m) == SumSizes(es)
  {
    if |es| > 0 {
      NoWrap(es[..|es| - 1], m);
    }
  }

  lemma WrappedSumSnoc(es: seq<Element>, e: Element, m: nat)
    requires 0 < m
    ensures WrappedSum(es + [e], m) == (WrappedSum(es, m) + ByteSize(e)) % m
  {
    assert (es + [e])[..|es|] == es;
  }

  /**
   * `VertexBufferLayout`: the elements in the order they were added and
   * the stride, kept equal to their total size modulo 2^32.
   */
  class VertexBufferLayout {
    var elements: seq<Element>
    var stride: nat

    /**
     * The stride is the 32-bit sum of the element sizes; no element is
     * normalised and every count fits an `unsigned int`.
     */
    ghost predicate Valid()
      reads this
    {
      stride == WrappedSum(elements, U32) &&
      forall i :: 0 <= i < |elements| ==> elements[i].normalized == GL_FALSE && elements[i].count < U32
    }

    /** A new layout has no elements and stride 0. */
    constructor ()
      ensures Valid()
      ensures elements == [] && stride == 0
    {
      elements := [];
      stride := 0;
    }

    /** The common step of both `AddAttribute` specialisations. */
    method Add(glType: nat, count: nat)
      requires Valid() && count < U32
      modifies this
      ensures Valid()
      ensures elements == old(elements) + [Element(glType, count, GL_FALSE)]
      ensures stride == (old(stride) + (GetSize(glType) * count) % U32) % U32
    {
      var e := Element(glType, count, GL_FALSE);
      WrappedSumSnoc(elements, e, U32);
      elements := elements + [e];
      stride := (stride + (GetSize(glType) * count) % U32) % U32;
    }

    /** `AddAttribute<float>(count)`: appends `{GL_FLOAT, count, GL_FALSE}`, 4 bytes per component. */
    method AddFloatAttribute(count: nat)
      requires Valid() && count < U32
      modifies this
      ensures Valid()
      ensures elements == old(elements) + [Element(GL_FLOAT, count, GL_FALSE)]
      ensures stride == (old(stride) + (4 * count) % U32) % U32
    {
      Add(GL_FLOAT, count);
    }

    /** `AddAttribute<unsigned int>(count)`: appends `{GL_UNSIGNED_INT, count, GL_FALSE}`, 4 bytes per component. */
    method AddUnsignedIntAttribute(count: nat)
      requires Valid() && count < U32
      modifies this
      ensures Valid()
      ensures elements == old(elements) + [Element(GL_UNSIGNED_INT, count, GL_FALSE)]
      ensures stride == (old(stride) + (4 * count) % U32) % U32
    {
      Add(GL_UNSIGNED_INT, count);
    }

    /** `GetElements`: a copy of the elements, in insertion order, none normalised. */
    method GetElements() returns (es: seq<Element>)
      requires Valid()
      ensures es == elements
      ensures forall i :: 0 <= i < |es| ==> es[i].normalized == GL_FALSE
    {
      es := elements;
    }

    /** `GetStride`: the total element size modulo 2^32. */
    method GetStride() returns (s: nat)
      requires Valid()
      ensures s == WrappedSum(elements, U32)
      ensures SumSizes(elements) < U32 ==> s == SumSizes(elements)
    {
      s := stride;
      if SumSizes(elements) < U32 {
        NoWrap(elements, U32);
      }
    }
  }

  /** The offset of the attribute that follows `es`: their total size as a `size_t`. */
  function OffsetAfter(es: seq<Element>): nat
  {
    WrappedSum(es, U64)
  }

  /**
   * The two calls `AddBuffer` issues per element, for all of `es`:
   * enable attribute i, then point it at its offset with the given stride.
   */
  function AttribCalls(es: seq<Element>, stride: nat): (calls: seq<GLCall>)
    ensures |calls| == 2 * |es|
  {
    if |es| == 0 then []
    else
      var i := |es| - 1;
      AttribCalls(es[..i], stride) +
      [EnableVertexAttribArray(i), VertexAttribPointer(i, es[i].count, es[i].glType, es[i].normalized, stride, OffsetAfter(es[..i]))]
  }

  /**
   * Attribute i is enabled by call 2i and pointed by call 2i+1, with its
   * own count, type and flag, the layout's stride, and as offset the total
   * size of the elements before it; attribute 0 has offset 0.
   */
  lemma {:induction false} AttribCallAt(es: seq<Element>, stride: nat, i: nat)
    requires i < |es|
    ensures AttribCalls(es, stride)[2 * i] == EnableVertexAttribArray(i)
    ensures AttribCalls(es, stride)[2 * i + 1] ==
      VertexAttribPointer(i, es[i].count, es[i].glType, es[i].normalized, stride, OffsetAfter(es[..i]))
    ensures i == 0 ==> AttribCalls(es, stride)[1].offset == 0
    decreases |es|
  {
    var n := |es| - 1;
    if i < n {
      AttribCallAt(es[..n], stride, i);
      assert es[..n][..i] == es[..i];
    }
    if i == 0 {
      assert es[..0] == [];
    }
  }

  /**
   * With no 32-bit wrap-around in the total size, the offset after the
   * last attribute equals the layout's stride.
   */
  lemma FinalOffsetIsStride(es: seq<Element>)
    requires SumSizes(es) < U32
    ensures OffsetAfter(es) == WrappedSum(es, U32) == SumSizes(es)
  {
    NoWrap(es, U32);
    NoWrap(es, U64);
  }

  /** `offset += element.count * GetSize(element.type)` on a `size_t`. */
  function NextOffset(offset: nat, e: Element): nat
  {
    (offset + ByteSize(e)) % U64
  }

  /** The calls and the offset over a prefix one longer. */
  lemma AttribPrefixStep(es: seq<Element>, stride: nat, i: nat)
    requires i < |es|
    ensures AttribCalls(es[..i + 1], stride) == AttribCalls(es[..i], stride) +
      [EnableVertexAttribArray(i), VertexAttribPointer(i, es[i].count, es[i].glType, es[i].normalized, stride, OffsetAfter(es[..i]))]
    ensures OffsetAfter(es[..i + 1]) == NextOffset(OffsetAfter(es[..i]), es[i])
  {
    assert es[..i + 1][..i] == es[..i];
  }

  /** `VertexArray`: one vertex-array object, named at construction. */
  class VertexArray {
    var id: nat

    /** `VertexArray()`: glGenVertexArrays gives a fresh name. */
    constructor (gl: GLContext)
      requires gl.Valid()
      modifies gl`nextName
      ensures gl.Valid()
      ensures id != 0 && id !in gl.shaders && id !in gl.programs && id !in gl.textures
    {
      var name := gl.NewName();
      id := name;
    }

    /** `Bind`: the array becomes current. */
    method Bind(gl: GLContext)
      modifies gl`calls
      ensures gl.calls == old(gl.calls) + [BindVertexArray(id)]
    {
      gl.Issue(BindVertexArray(id));
    }

    /** `Unbind`: no array is current. */
    method Unbind(gl: GLContext)
      modifies gl`calls
      ensures gl.calls == old(gl.calls) + [BindVertexArray(0)]
    {
      gl.Issue(BindVertexArray(0));
    }

    /**
     * `AddBuffer`: the array and then the buffer are bound, and every
     * element i of the layout gets an enabled attribute i pointing at the
     * running offset, which grows by the element's size after each one.
     * The offset left after the loop is returned as `end`.
     */
    method AddBuffer(buffer: nat, layout: VertexBufferLayout, gl: GLContext) returns (end: nat)
      requires layout.Valid()
      modifies gl`calls
      ensures gl.calls ==
        old(gl.calls) + [BindVertexArray(id), BindArrayBuffer(buffer)] + AttribCalls(layout.elements, layout.stride)
      ensures end == OffsetAfter(layout.elements)
      ensures SumSizes(layout.elements) < U32 ==> end == layout.stride
    {
      Bind(gl);
      gl.Issue(BindArrayBuffer(buffer));
      var elements := layout.GetElements();
      var stride := layout.GetStride();
      end := PointAttributes(elements, stride, gl);
      if SumSizes(elements) < U32 {
        FinalOffsetIsStride(elements);
      }
    }

    /** The loop of `AddBuffer`: one enabled attribute per element, at the running offset. */
    method PointAttributes(elements: seq<Element>, stride: nat, gl: GLContext) returns (offset: nat)
      modifies gl`calls
      ensures gl.calls == old(gl.calls) + AttribCalls(elements, stride)
      ensures offset == OffsetAfter(elements)
    {
      offset := 0;
      var i := 0;
      while i < |elements|
        invariant 0 <= i <= |elements|
        invariant offset == OffsetAfter(elements[..i])
        invariant gl.calls == old(gl.calls) + AttribCalls(elements[..i], stride)
      {
        AttribPrefixStep(elements, stride, i);
        PointAttribute(i, elements[i], stride, offset, gl);
        offset := NextOffset(offset, elements[i]);
        i := i + 1;
      }
      assert elements[..i] == elements;
    }

    /** One iteration of `AddBuffer`: attribute i is enabled and pointed at `offset`. */
    method PointAttribute(i: nat, element: Element, stride: nat, offset: nat, gl: GLContext)
      modifies gl`calls
      ensures gl.calls == old(gl.calls) +
        [EnableVertexAttribArray(i), VertexAttribPointer(i, element.count, element.glType, element.normalized, stride, offset)]
    {
      gl.Issue(EnableVertexAttribArray(i));
      gl.Issue(VertexAttribPointer(i, element.count, element.glType, element.normalized, stride, offset));
    }
  }
}
