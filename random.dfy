/** The byte source behind crypto/rand: the bytes it will hand out, in order. */
module Random {

  newtype byte = x: int | 0 <= x < 256

  /** An entropy source whose remaining output is `pool`; a read longer than the pool fails. */
  class Entropy {
    var pool: seq<byte>

    constructor (pool: seq<byte>)
      ensures this.pool == pool
    {
      this.pool := pool;
    }

    /** rand.Read: fills all of `buf` from the front of the pool, or fails and changes nothing. */
    method Read(buf: array<byte>) returns (ok: bool)
      modifies this, buf
      ensures ok <==> buf.Length <= |old(pool)|
      ensures ok ==> buf[..] == old(pool)[..buf.Length] && pool == old(pool)[buf.Length..]
      ensures !ok ==> pool == old(pool) && buf[..] == old(buf[..])
    {
      if buf.Length > |pool| {
        return false;
      }
      for i := 0 to buf.Length
        invariant pool == old(pool)
        invariant buf[..i] == pool[..i]
      {
        buf[i] := pool[i];
      }
      assert buf[..] == buf[..buf.Length];
      pool := pool[buf.Length..];
      return true;
    }
  }
}
