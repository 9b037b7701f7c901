/**
 * A 2D texture: the channel-count to pixel-format mapping, the upload of a
 * decoded image, and the single-owner handle that moves between texture
 * objects. Decoding the image file is not modelled: what the decoder
 * returns reaches the constructor as a parameter.
 */
module Textures {
  import opened Wrappers
  import opened GLDriver

  /** The decoder's answer for a loaded image: its size and channel count. */
  datatype Image = Image(width: int, height: int, numComponents: int)

  /**
   * `GetTextureFormat`: one channel is GL_RED, three GL_RGB, four GL_RGBA;
   * every other count, two included, is GL_INVALID_VALUE.
   */
  function GetTextureFormat(numComponents: int): (format: nat)
  {
    match numComponents
    case 1 => GL_RED
    case 3 => GL_RGB
    case 4 => GL_RGBA
    case _ => GL_INVALID_VALUE
  }

  /** The number of channels a pixel format carries; 0 for anything else. */
  function ChannelsOf(format: nat): (n: nat)
    ensures n != 0 <==> format in {GL_RED, GL_RGB, GL_RGBA}
  {
    if format == GL_RED then 1
    else if format == GL_RGB then 3
    else if format == GL_RGBA then 4
    else 0
  }

  /**
   * `GetTextureFormat` gives a real format exactly for the counts 1, 3 and
   * 4, and that format carries the requested number of channels.
   */
  lemma TextureFormatChannels(numComponents: int)
    ensures GetTextureFormat(numComponents) != GL_INVALID_VALUE <==> numComponents in {1, 3, 4}
    ensures numComponents in {1, 3, 4} ==> ChannelsOf(GetTextureFormat(numComponents)) == numComponents
    ensures numComponents !in {1, 3, 4} ==> ChannelsOf(GetTextureFormat(numComponents)) == 0
  {
  }

  /**
   * The format the constructor uploads with: the mapped format, or GL_RGBA
   * when the channel count has no format of its own.
   */
  function UploadFormat(numComponents: int): (format: nat)
    ensures format in {GL_RED, GL_RGB, GL_RGBA}
    ensures numComponents in {1, 3, 4} ==> ChannelsOf(format) == numComponents
    ensures numComponents !in {1, 3, 4} ==> format == GL_RGBA
  {
    var mapped := GetTextureFormat(numComponents);
    if mapped == GL_INVALID_VALUE then GL_RGBA else mapped
  }

  /** The calls the constructor issues beyond generating the name. */
  function UploadCalls(image: Option<Image>): (calls: seq<GLCall>)
    ensures image.None? ==> calls == []
    ensures image.Some? ==>
      |calls| == 1 && calls[0].TexImage2D? &&
      calls[0].format in {GL_RED, GL_RGB, GL_RGBA} &&
      calls[0].width == image.value.width && calls[0].height == image.value.height
  {
    match image
    case None => []
    case Some(img) => [TexImage2D(UploadFormat(img.numComponents), img.width, img.height)]
  }

  /** A texture object: it owns the GL name in `id`, or nothing when `id` is 0. */
  class Texture {
    var id: nat

    /**
     * `Texture(path)`: a fresh texture name is generated whatever happens;
     * when the image decoded, it is uploaded in the format its channel
     * count maps to, GL_RGBA when there is none. A failed decode only logs.
     */
    constructor Load(image: Option<Image>, gl: GLContext)
      requires gl.Valid()
      modifies gl
      ensures gl.Valid()
      ensures id != 0 && id !in old(gl.textures) && gl.textures == old(gl.textures) + {id}
      ensures gl.shaders == old(gl.shaders) && gl.programs == old(gl.programs)
      ensures gl.calls == old(gl.calls) + UploadCalls(image)
    {
      var name := gl.GenTexture();
      id := name;
      if image.Some? {
        gl.Issue(TexImage2D(UploadFormat(image.value.numComponents), image.value.width, image.value.height));
      }
    }

    /** The move constructor: the name is taken over and the source left owning nothing. */
    constructor Move(other: Texture)
      modifies other
      ensures id == old(other.id) && other.id == 0
    {
      id := other.id;
      other.id := 0;
    }

    /**
     * Move assignment. Assigning a texture to itself changes nothing.
     * Otherwise the name this texture owned is released, the source's name
     * is taken over and the source is left owning nothing.
     */
    method MoveAssign(other: Texture, gl: GLContext)
      requires gl.Valid()
      modifies this, other, gl`textures
      ensures gl.Valid()
      ensures other == this ==> id == old(id) && gl.textures == old(gl.textures)
      ensures other != this ==>
        id == old(other.id) && other.id == 0 &&
        gl.textures == old(gl.textures) - {old(id)}
    {
      if this != other {
        gl.DeleteTexture(id);
        id := other.id;
        other.id := 0;
      }
    }

    /** `~Texture()`: the owned name is released; 0 is ignored by the driver. */
    method Dispose(gl: GLContext)
      requires gl.Valid()
      modifies gl`textures
      ensures gl.Valid()
      ensures gl.textures == old(gl.textures) - {id}
    {
      gl.DeleteTexture(id);
    }
  }

  /**
   * Moving leaves one owner: after a move between two distinct textures,
   * the source owns nothing and the target owns the moved name, and once
   * both are destroyed neither the moved name nor the target's old name
   * is live any more. Deletions are tracked by the live set only, so how
   * often a name was deleted is not recorded.
   */
  method MoveThenDispose(target: Texture, source: Texture, gl: GLContext)
    requires gl.Valid() && target != source
    requires source.id != 0 && source.id in gl.textures
    modifies target, source, gl`textures
    ensures gl.Valid()
    ensures source.id == 0 && target.id == old(source.id)
    ensures gl.textures == old(gl.textures) - {old(target.id), old(source.id)}
  {
    target.MoveAssign(source, gl);
    source.Dispose(gl);
    target.Dispose(gl);
  }
}
