/** The SPI flash page-write splitter (flash_wrapper.c): page-program transfers that
    together are one linear write. */
module FlashWriter {
  import opened Bytes

  const FLASH_PAGE_SIZE := 0x100
  const WORD := 0x1_0000_0000

  type uint32 = x: int | 0 <= x < WORD

  function PageBase(address: uint32): uint32 {
    address - address % FLASH_PAGE_SIZE
  }

  /** One page-program transfer. */
  datatype Chunk = Chunk(address: uint32, data: seq<byte>)

  /** Length of the next transfer, in the program's 32-bit arithmetic. */
  function ChunkLength(address: uint32, page: uint32, next: uint32, remaining: uint32): uint32 {
    if page != PageBase((address + remaining) % WORD) then (next - address) % WORD else remaining
  }

  function NextPage(address: uint32): uint32 {
    (PageBase(address) + FLASH_PAGE_SIZE) % WORD
  }

  /** Inside one page, counted from the page of its first byte. */
  predicate InOnePage(c: Chunk) {
    c.address % FLASH_PAGE_SIZE + |c.data| <= FLASH_PAGE_SIZE
  }

  /** The program's split is the expected one: up to the end of the page or all that
      remains, unless the end wraps all the way round into the first page. */
  lemma ChunkLengthIs(address: uint32, remaining: uint32)
    requires remaining > 0
    ensures var n := ChunkLength(address, PageBase(address), NextPage(address), remaining);
            var room := FLASH_PAGE_SIZE - address % FLASH_PAGE_SIZE;
            && 0 < n <= remaining
            && n == (if remaining >= room && remaining + address % FLASH_PAGE_SIZE < WORD then room else remaining)
            && (n <= room <==> remaining + address % FLASH_PAGE_SIZE < WORD)
            && (n < remaining ==> (address + n) % WORD == NextPage(address))
            && NextPage(address) % FLASH_PAGE_SIZE == 0
  {
    var offset, page := address % FLASH_PAGE_SIZE, PageBase(address);
    assert page == address / FLASH_PAGE_SIZE * FLASH_PAGE_SIZE && page + FLASH_PAGE_SIZE <= WORD;
    var end := offset + remaining;
    if end >= WORD {
      assert (address + remaining) % WORD == (page + (end - WORD)) % WORD;
      PageBaseOf(page, end - WORD);
    } else {
      PageBaseOf(page, end);
    }
  }

  /** The page base of an address `d` bytes past a page base. */
  lemma PageBaseOf(page: uint32, d: uint32)
    requires page % FLASH_PAGE_SIZE == 0
    ensures PageBase((page + d) % WORD) == page <==> d < FLASH_PAGE_SIZE
    ensures d < FLASH_PAGE_SIZE ==> page + d < WORD
  {
    var p := page / FLASH_PAGE_SIZE;
    assert page == p * FLASH_PAGE_SIZE && p < 0x100_0000;
    var q := d / FLASH_PAGE_SIZE;
    assert page + d == (p + q) * FLASH_PAGE_SIZE + d % FLASH_PAGE_SIZE;
    if p + q < 0x100_0000 {
      assert (page + d) % WORD == page + d;
    } else {
      assert (page + d) % WORD == (p + q - 0x100_0000) * FLASH_PAGE_SIZE + d % FLASH_PAGE_SIZE;
    }
  }

  /** The transfers of a write, as a plain recursion over what remains. */
  function Split(address: uint32, data: seq<byte>): (cs: seq<Chunk>)
    requires |data| < WORD
    decreases |data|
  {
    if data == [] then []
    else
      ChunkLengthIs(address, |data|);
      var n := ChunkLength(address, PageBase(address), NextPage(address), |data|);
      [Chunk(address, data[..n])] + Split(NextPage(address), data[n..])
  }

  /** The first transfer and the rest, which starts at the next page. */
  lemma SplitStep(address: uint32, data: seq<byte>) returns (n: uint32)
    requires 0 < |data| < WORD
    ensures n == ChunkLength(address, PageBase(address), NextPage(address), |data|)
    ensures 0 < n <= |data| && data == data[..n] + data[n..]
    ensures Split(address, data) == [Chunk(address, data[..n])] + Split(NextPage(address), data[n..])
    ensures n < |data| ==> (address + n) % WORD == NextPage(address)
  {
    ChunkLengthIs(address, |data|);
    n := ChunkLength(address, PageBase(address), NextPage(address), |data|);
  }

  function Concat(cs: seq<Chunk>): seq<byte> {
    if cs == [] then [] else cs[0].data + Concat(cs[1..])
  }

  /** Transfers in order from `address`: each non-empty, each starting where the previous
      one ended. */
  predicate Contiguous(cs: seq<Chunk>, address: uint32) {
    cs != [] ==>
      cs[0].address == address && cs[0].data != [] && Contiguous(cs[1..], (address + |cs[0].data|) % WORD)
  }

  /** The transfers are contiguous and non-empty, and together are the data. */
  lemma {:induction false} SplitCovers(address: uint32, data: seq<byte>)
    requires |data| < WORD
    ensures Contiguous(Split(address, data), address) && Concat(Split(address, data)) == data
    decreases |data|
  {
    if data != [] {
      var n := SplitStep(address, data);
      SplitCovers(NextPage(address), data[n..]);
      assert Split(address, data)[1..] == Split(NextPage(address), data[n..]);
    }
  }

  /** Every transfer stays inside one 256-byte page exactly when the length and the first
      byte's offset in its page add up to less than 2^32. */
  lemma SplitInPages(address: uint32, data: seq<byte>)
    requires 0 < |data| < WORD
    ensures (forall i :: 0 <= i < |Split(address, data)| ==> InOnePage(Split(address, data)[i]))
       <==> |data| + address % FLASH_PAGE_SIZE < WORD
  {
    ChunkLengthIs(address, |data|);
    if |data| + address % FLASH_PAGE_SIZE < WORD {
      SplitInPagesWhenItFits(address, data);
    } else {
      assert !InOnePage(Split(address, data)[0]);
    }
  }

  lemma {:induction false} SplitInPagesWhenItFits(address: uint32, data: seq<byte>)
    requires |data| + address % FLASH_PAGE_SIZE < WORD
    ensures forall i :: 0 <= i < |Split(address, data)| ==> InOnePage(Split(address, data)[i])
    decreases |data|
  {
    if data != [] {
      ChunkLengthIs(address, |data|);
      var n := SplitStep(address, data);
      SplitInPagesWhenItFits(NextPage(address), data[n..]);
      assert InOnePage(Chunk(address, data[..n]));
    }
  }

  /** The memory after a series of transfers. */
  function Program(mem: seq<byte>, cs: seq<Chunk>): seq<byte>
    requires forall c :: c in cs ==> c.address + |c.data| <= |mem|
    decreases |cs|
  {
    if cs == [] then mem else Program(Splice(mem, cs[0].address, cs[0].data), cs[1..])
  }

  /** Programming contiguous transfers is one linear write of their bytes. */
  lemma {:induction false} ContiguousIsLinear(mem: seq<byte>, address: uint32, cs: seq<Chunk>)
    requires Contiguous(cs, address) && address + |Concat(cs)| <= |mem| <= WORD
    ensures forall c :: c in cs ==> c.address + |c.data| <= |mem|
    ensures Program(mem, cs) == Splice(mem, address, Concat(cs))
    decreases |cs|
  {
    if cs == [] {
      assert Splice(mem, address, []) == mem;
    } else {
      var first := cs[0].data;
      var next := Splice(mem, address, first);
      if cs[1..] == [] {
        assert Concat(cs) == first && Program(next, cs[1..]) == next;
      } else {
        assert |Concat(cs[1..])| > 0;
        ContiguousIsLinear(next, address + |first|, cs[1..]);
        SpliceTwice(mem, address, first, Concat(cs[1..]));
      }
    }
  }

  lemma {:induction false} ContiguousPrefix(cs: seq<Chunk>, address: uint32, k: nat)
    requires Contiguous(cs, address) && k <= |cs|
    ensures Contiguous(cs[..k], address) && |Concat(cs[..k])| <= |Concat(cs)|
    ensures Concat(cs[..k]) == Concat(cs)[..|Concat(cs[..k])|]
    decreases |cs|
  {
    if k > 0 {
      ContiguousPrefix(cs[1..], (address + |cs[0].data|) % WORD, k - 1);
      assert cs[..k][1..] == cs[1..][..k - 1];
    }
  }

  /** Without address overflow, any prefix of the transfers, so all of them or those
      before a failure, is one linear write of the prefix of the data they cover. */
  lemma PrefixIsLinearWrite(mem: seq<byte>, address: uint32, data: seq<byte>, k: nat)
    requires |data| < WORD && address + |data| <= |mem| <= WORD && k <= |Split(address, data)|
    ensures var done := Split(address, data)[..k];
            && |Concat(done)| <= |data| && Concat(done) == data[..|Concat(done)|]
            && (forall c :: c in done ==> c.address + |c.data| <= |mem|)
            && Program(mem, done) == Splice(mem, address, Concat(done))
    ensures k == |Split(address, data)| ==> Concat(Split(address, data)[..k]) == data
  {
    var cs := Split(address, data);
    SplitCovers(address, data);
    ContiguousPrefix(cs, address, k);
    ContiguousIsLinear(mem, address, cs[..k]);
    assert cs[..|cs|] == cs;
  }

  /** The device: the status of its `k`-th transfer is not known in advance. */
  class SpiFlash {
    const status: nat -> int
    var transfers: seq<Chunk>

    constructor (status: nat -> int)
      ensures this.status == status && transfers == []
    {
      this.status := status;
      transfers := [];
    }

    method Transfer(c: Chunk) returns (s: int)
      modifies this
      ensures transfers == old(transfers) + [c] && s == status(|old(transfers)|)
    {
      s := status(|transfers|);
      transfers := transfers + [c];
    }

    /** `Wrapper_spi_flash_write`: issues the transfers in order until one fails; returns
        the bytes written, or the status when there are none. `done` counts the
        transfers that succeeded. */
    method Write(address: uint32, data: seq<byte>) returns (result: int, ghost done: nat)
      requires |data| < WORD
      modifies this
      ensures var cs := Split(address, data); var first := |old(transfers)|;
              && done <= |cs| && |Concat(cs[..done])| <= |data|
              && (forall i :: first <= i < first + done ==> status(i) == 0)
              && (done < |cs| ==> status(first + done) != 0)
              && transfers == old(transfers) + cs[..if done < |cs| then done + 1 else done]
              && var count := |Concat(cs[..done])|;
                 && (count > 0 ==> -0x8000_0000 <= result < 0x8000_0000 && (count - result) % 0x1_0000_0000 == 0)
                 && (0 < count < 0x8000_0000 ==> result == count)
                 && (count == 0 ==> result == if done < |cs| then status(first + done) else 0)
                 && (done == |cs| ==> count == |data|)
    {
      var page: uint32, at: uint32, next: uint32 := PageBase(address), address, NextPage(address);
      var remaining: uint32, rest, s := |data|, data, 0;
      ghost var cs := Split(address, data);
      done := 0;
      while s == 0 && remaining > 0
        invariant remaining == |rest| <= |data| && Progress(cs, done, at, rest, data)
        invariant s == 0 && remaining > 0 ==> page == PageBase(at) && next == NextPage(at)
        invariant forall i :: |old(transfers)| <= i < |old(transfers)| + done ==> status(i) == 0
        invariant Issued(old(transfers), transfers, cs, done, s, status)
        decreases remaining, s == 0
      {
        var n := ChunkLength(at, page, next, remaining);
        ProgressStep(cs, done, at, rest, data, n);
        s := Transfer(Chunk(at, rest[..n]));
        if s == 0 {
          PageBaseOfPage(at);
          done := done + 1;
          remaining, rest, page, at := remaining - n, rest[n..], next, next;
          next := (next + FLASH_PAGE_SIZE) % WORD;
        }
      }
      WrittenSoFar(cs, done, at, rest, data);
      var written := |data| - remaining;
      AsIntIsSigned(written);
      result := if written > 0 then AsInt(written) else s;
    }
  }

  /** `now` are the transfers once `done` of `cs` were made and, when `s` is a failure, the
      next one failed with it. */
  ghost predicate Issued(before: seq<Chunk>, now: seq<Chunk>, cs: seq<Chunk>, done: nat, s: int, status: nat -> int) {
    if s == 0 then done <= |cs| && now == before + cs[..done]
    else done < |cs| && s == status(|before| + done) && now == before + cs[..done + 1]
  }

  lemma WrittenSoFar(cs: seq<Chunk>, done: nat, at: uint32, rest: seq<byte>, data: seq<byte>)
    requires Progress(cs, done, at, rest, data)
    ensures |Concat(cs[..done])| == |data| - |rest| && (done == |cs| <==> rest == [])
  {
    assert done == |cs| <==> cs[done..] == [];
    if rest != [] {
      var _ := SplitStep(at, rest);
    }
  }

  lemma AsIntIsSigned(n: uint32)
    ensures -0x8000_0000 <= AsInt(n) < 0x8000_0000 && (n - AsInt(n)) % 0x1_0000_0000 == 0
    ensures n < 0x8000_0000 ==> AsInt(n) == n
  {
  }

  lemma PageBaseOfPage(address: uint32)
    ensures PageBase(NextPage(address)) == NextPage(address)
    ensures NextPage(NextPage(address)) == (NextPage(address) + FLASH_PAGE_SIZE) % WORD
  {
    ChunkLengthIs(address, 1);
  }

  /** The first `done` transfers are made, and `rest` is left to write from `at` on. */
  ghost predicate Progress(cs: seq<Chunk>, done: nat, at: uint32, rest: seq<byte>, data: seq<byte>) {
    |rest| < WORD && done <= |cs| && cs[done..] == Split(at, rest) && data == Concat(cs[..done]) + rest
  }

  lemma ProgressStep(cs: seq<Chunk>, done: nat, at: uint32, rest: seq<byte>, data: seq<byte>, n: uint32)
    requires rest != [] && Progress(cs, done, at, rest, data)
    requires n == ChunkLength(at, PageBase(at), NextPage(at), |rest|)
    ensures 0 < n <= |rest| && done < |cs| && cs[..done + 1] == cs[..done] + [Chunk(at, rest[..n])]
    ensures Progress(cs, done + 1, NextPage(at), rest[n..], data)
  {
    var _ := SplitStep(at, rest);
    OneMore(cs, done, Chunk(at, rest[..n]), Split(NextPage(at), rest[n..]));
    assert Concat(cs[..done]) + rest[..n] + rest[n..] == data;
  }

  lemma OneMore(cs: seq<Chunk>, done: nat, c: Chunk, rest: seq<Chunk>)
    requires done <= |cs| && cs[done..] == [c] + rest
    ensures done < |cs| && cs[..done + 1] == cs[..done] + [c] && cs[done + 1..] == rest
    ensures Concat(cs[..done + 1]) == Concat(cs[..done]) + c.data
  {
    assert cs[done] == cs[done..][0] == c;
    assert cs[done + 1..] == cs[done..][1..];
    ConcatAppend(cs[..done], c);
  }

  /** A size returned as a 32-bit signed int. */
  function AsInt(n: uint32): int {
    if n < WORD / 2 then n else n - WORD
  }

  lemma {:induction false} ConcatAppend(cs: seq<Chunk>, c: Chunk)
    ensures Concat(cs + [c]) == Concat(cs) + c.data
  {
    if cs == [] {
      assert [c][1..] == [];
    } else {
      ConcatAppend(cs[1..], c);
      assert (cs + [c])[1..] == cs[1..] + [c];
    }
  }
}
