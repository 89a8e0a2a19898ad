/** Integer geometry shared by the texture cache and the application:
    the unsigned machine integers, `Vec2u32`, `RectU32`, and the record of one
    `write_texture` call on the GPU queue. */
module Math {

  const U32_LIMIT: int := 0x1_0000_0000

  /** A Rust `u8`. */
  type u8 = x: int | 0 <= x < 0x100

  /** A Rust `u32`. */
  type u32 = x: int | 0 <= x < 0x1_0000_0000

  /** `Vec2u32`: a texture coordinate or an extent in pixels. */
  datatype Vec2 = Vec2(x: u32, y: u32)

  /** `RectU32`: an axis-aligned rectangle of pixels `[pos, pos + size)`. */
  datatype Rect = Rect(pos: Vec2, size: Vec2)
  {
    /** The pixel `p` lies inside this rectangle. */
    predicate Contains(p: Vec2) {
      pos.x <= p.x < pos.x + size.x && pos.y <= p.y < pos.y + size.y
    }
  }

  /** One `queue.write_texture` call: the origin in the texture, the extent
      (one byte per pixel, `bytes_per_row == size.x`) and the bytes handed over. */
  datatype TextureWrite = TextureWrite(origin: Vec2, size: Vec2, bytes: seq<u8>)
}
