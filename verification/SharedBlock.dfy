/** A control or feedback block as an object: the two calls run to completion by themselves.
    Their contracts are the undisturbed runs of module `Seqlock`. */
module SharedBlock {
  import Seqlock

  newtype uint32 = x: int | 0 <= x < 0x1_0000_0000

  class SeqlockBlock<Word> {
    var counter: uint32
    const data: array<Word>
    ghost var published: seq<seq<Word>>

    /** The block as a state of the protocol, without its readers. */
    ghost function Abs(): Seqlock.State<Word>
      reads this, data
    {
      Seqlock.State(counter as nat, data[..], Seqlock.Resting, [], published)
    }

    constructor (words: nat, zero: Word)
      ensures fresh(data) && data.Length == words
      ensures data[..] == seq(words, _ => zero) && Seqlock.Initial(Abs())
    {
      counter := 0;
      data := new Word[words](_ => zero);
      new;
      assert data[..] == seq(words, _ => zero);
      published := [data[..]];
    }

    /** `fetch_add(1)` on an unsigned 32-bit counter. */
    method FetchAdd()
      modifies this`counter
      ensures counter as nat == Seqlock.Bump(old(counter) as nat)
    {
      counter := if counter == 0xFFFF_FFFF then 0 else counter + 1;
    }

    method Write(src: array<Word>)
      requires src.Length == data.Length && src != data
      modifies this, data
      ensures Abs() == Seqlock.AfterWrite(old(Abs()), src[..])
      ensures data[..] == src[..] && counter as nat == (old(counter) as nat + 2) % 0x1_0000_0000
    {
      FetchAdd();
      Memcpy(data, src);
      FetchAdd();
      published := published + [src[..]];
    }

    method TryRead(dst: array<Word>) returns (ok: bool)
      requires dst.Length == data.Length && dst != data
      modifies dst
      ensures ok <==> counter as nat % 2 == 0
      ensures dst[..] == if ok then data[..] else old(dst[..])
      ensures forall pc :: Seqlock.Reader(Seqlock.Outside(ok), dst[..])
                        == Seqlock.AfterRead(Abs(), Seqlock.Reader(pc, old(dst[..])))
    {
      var s1 := counter;
      if s1 % 2 == 1 {
        return false;
      }
      Memcpy(dst, data);
      ok := counter == s1;
    }
  }

  method Memcpy<Word>(dst: array<Word>, src: array<Word>)
    requires dst.Length == src.Length && dst != src
    modifies dst
    ensures dst[..] == src[..]
  {
    var i := 0;
    while i < src.Length
      invariant 0 <= i <= src.Length
      invariant dst[..i] == src[..i]
    {
      dst[i] := src[i];
      i := i + 1;
    }
  }
}
