/** The key manifest store: 2048-byte slots in a NOR flash with 4096-byte erase pages
    (cerberus_append_key_manifest and the slot scans of cerberus_pfr_key_manifest.c). */
module KeyManifests {
  import opened Bits
  import opened Bytes
  import opened Options
  import opened ProvisionUfm
  import opened KeyCancellation

  const KEY_MANIFEST_SIZE := 2048
  const PAGE_SIZE := 4096
  const KEY_MANIFEST_MAX_COUNT := 16
  const RSA_PUBLIC_KEY_SIZE := 520
  const HEADER_SIZE := 48
  const SECTION_SIZE := 16
  const MANIFEST_SIZE := 518

  const UPDATE_FORMAT_TYPE_BMC := 0
  const UPDATE_FORMAT_TYPE_PCH := 1
  const UPDATE_FORMAT_TYPE_HROT := 2
  const UPDATE_FORMAT_TYPE_KCC := 4
  const UPDATE_FORMAT_TYPE_DCC := 5
  const UPDATE_FORMAT_TYPE_KEYM := 6
  const RECOVERY_HEADER_MAGIC := 0x8A147C29
  const KEY_MANAGEMENT_HEADER_MAGIC := 0xB6EAFD19
  const KEY_MANAGEMENT_SECTION_MAGIC := 0xF27F28D7
  const KEY_MANIFEST_SECTION_MAGIC := 0x6B65796D

  // ----- layout of an image in a slot or in the staging area

  function Field(s: seq<byte>, at: nat, n: nat): nat
    requires at + n <= |s|
  {
    FromLittleEndian(s[at..at + n])
  }

  function HeaderLength(s: seq<byte>, at: nat): nat
    requires at + HEADER_SIZE <= |s|
  {
    Field(s, at, 2)
  }

  function Format(s: seq<byte>, at: nat): nat
    requires at + HEADER_SIZE <= |s|
  {
    Field(s, at + 2, 2)
  }

  function Magic(s: seq<byte>, at: nat): nat
    requires at + HEADER_SIZE <= |s|
  {
    Field(s, at + 4, 4)
  }

  function ImageLength(s: seq<byte>, at: nat): nat
    requires at + HEADER_SIZE <= |s|
  {
    Field(s, at + 40, 4)
  }

  /** `verify_recovery_header_magic_number`. */
  predicate HeaderMagicOk(format: nat, magic: nat) {
    if format == UPDATE_FORMAT_TYPE_BMC || format == UPDATE_FORMAT_TYPE_PCH || format == UPDATE_FORMAT_TYPE_HROT then
      magic == RECOVERY_HEADER_MAGIC
    else if format == UPDATE_FORMAT_TYPE_KCC || format == UPDATE_FORMAT_TYPE_DCC || format == UPDATE_FORMAT_TYPE_KEYM
    then
      magic == KEY_MANAGEMENT_HEADER_MAGIC
    else false
  }

  predicate SectionOk(s: seq<byte>, at: nat)
    requires at + SECTION_SIZE <= |s|
  {
    && Field(s, at + 4, 4) == KEY_MANAGEMENT_SECTION_MAGIC && Field(s, at, 2) == SECTION_SIZE
    && Field(s, at + 12, 4) == MANIFEST_SIZE
  }

  /** The key manifest in an image at `at`: None when a header is wrong or a part lies
      beyond the end. */
  function ManifestIn(s: seq<byte>, at: nat): Option<KeyManifest>
    requires at + HEADER_SIZE <= |s|
  {
    var section := at + HeaderLength(s, at);
    var body := section + SECTION_SIZE;
    if body + MANIFEST_SIZE > |s| || !SectionOk(s, section) || Field(s, body, 4) != KEY_MANIFEST_SECTION_MAGIC then None
    else Some(KeyManifest(s[body + 4], s[body + 5], HashList(s, body + 6)))
  }

  function HashList(s: seq<byte>, at: nat): (hs: seq<seq<byte>>)
    requires at + (MAX_KEY_ID + 1) * KEY_HASH_SIZE <= |s|
    ensures |hs| == MAX_KEY_ID + 1 && forall h :: h in hs ==> |h| == KEY_HASH_SIZE
  {
    seq(MAX_KEY_ID + 1, i requires 0 <= i <= MAX_KEY_ID =>
      s[at + KEY_HASH_SIZE * i..at + KEY_HASH_SIZE * i + KEY_HASH_SIZE])
  }

  // ----- slots

  /** The key partition: whole erase pages, at least one. */
  type Partition = f: seq<byte> | |f| >= PAGE_SIZE && |f| % PAGE_SIZE == 0 witness seq(PAGE_SIZE, _ => 0xFF)

  function SlotCount(f: Partition): (n: nat)
    ensures n <= KEY_MANIFEST_MAX_COUNT && n * KEY_MANIFEST_SIZE <= |f|
  {
    if |f| / KEY_MANIFEST_SIZE < KEY_MANIFEST_MAX_COUNT then |f| / KEY_MANIFEST_SIZE else KEY_MANIFEST_MAX_COUNT
  }

  function Slot(f: Partition, k: nat): (s: seq<byte>)
    requires k < SlotCount(f)
    ensures |s| == KEY_MANIFEST_SIZE
  {
    f[k * KEY_MANIFEST_SIZE..k * KEY_MANIFEST_SIZE + KEY_MANIFEST_SIZE]
  }

  /** The append scan's test of a slot. */
  predicate IsKeyManifest(s: seq<byte>)
    requires |s| >= HEADER_SIZE
  {
    Format(s, 0) == UPDATE_FORMAT_TYPE_KEYM && Magic(s, 0) == KEY_MANAGEMENT_HEADER_MAGIC
  }

  predicate Occupied(f: Partition, k: nat)
    requires k < SlotCount(f)
  {
    IsKeyManifest(Slot(f, k))
  }

  /** The occupied slots are the first `n`. */
  predicate IsPrefix(f: Partition, n: nat) {
    n <= SlotCount(f) && forall k :: 0 <= k < SlotCount(f) ==> (Occupied(f, k) <==> k < n)
  }

  /** `cerberus_pfr_get_key_manifest_append_addr`: the first free slot among those whose
      header can be read. */
  function AppendSlot(f: Partition, readable: nat -> bool, k: nat): (r: Option<nat>)
    requires k <= SlotCount(f)
    ensures r.Some? ==> k <= r.value < SlotCount(f) && readable(r.value) && !Occupied(f, r.value)
    ensures forall j :: k <= j < (if r.Some? then r.value else SlotCount(f)) && readable(j) ==> Occupied(f, j)
    decreases SlotCount(f) - k
  {
    if k == SlotCount(f) then None
    else if readable(k) && !Occupied(f, k) then Some(k)
    else AppendSlot(f, readable, k + 1)
  }

  // ----- appending

  /** Programming NOR flash only clears bits. */
  function Programmed(f: seq<byte>, at: nat, data: seq<byte>): (r: seq<byte>)
    requires at + |data| <= |f|
    ensures |r| == |f|
  {
    f[..at] + seq(|data|, i requires 0 <= i < |data| => And(f[at + i], data[i])) + f[at + |data|..]
  }

  lemma ProgramErased(f: seq<byte>, at: nat, data: seq<byte>)
    requires at + |data| <= |f| && forall i :: at <= i < at + |data| ==> f[i] == 0xFF
    ensures Programmed(f, at, data) == Splice(f, at, data)
  {
    forall i | 0 <= i < |data| ensures And(f[at + i], data[i]) == data[i] {
      AndErased(data[i]);
    }
    assert seq(|data|, i requires 0 <= i < |data| => And(f[at + i], data[i])) == data;
  }

  /** What one append meets: readable slot headers, and the flash operations in order. A
      failed erase or write leaves the page as `broken`. */
  datatype AppendIo = AppendIo(sourceOk: bool, readable: nat -> bool, readPageOk: bool, eraseOk: bool,
                               rewriteOk: bool, writeOk: bool, broken: seq<byte>)

  predicate AppendIoOk(io: AppendIo) {
    |io.broken| == PAGE_SIZE
  }

  /** The length written, in 32-bit arithmetic. */
  function AppendLength(image: seq<byte>): nat
    requires |image| == KEY_MANIFEST_SIZE
  {
    (ImageLength(image, 0) + RSA_PUBLIC_KEY_SIZE) % 0x1_0000_0000
  }

  predicate AcceptsImage(image: seq<byte>)
    requires |image| == KEY_MANIFEST_SIZE
  {
    AppendLength(image) <= KEY_MANIFEST_SIZE && ManifestIn(image, 0).Some?
  }

  function PageOf(k: nat): nat {
    k / 2 * PAGE_SIZE
  }

  lemma SlotInPage(f: Partition, k: nat)
    requires k < SlotCount(f)
    ensures PageOf(k) + PAGE_SIZE <= |f|
    ensures k * KEY_MANIFEST_SIZE == PageOf(k) + (if k % 2 == 1 then KEY_MANIFEST_SIZE else 0)
  {
    assert k == k / 2 * 2 + k % 2;
    assert (|f| / PAGE_SIZE) * PAGE_SIZE == |f|;
  }

  /** A page left unusable by a failed erase or write. */
  function Broken(f: Partition, k: nat, io: AppendIo): (f': Partition)
    requires k < SlotCount(f) && AppendIoOk(io)
    ensures |f'| == |f|
  {
    SlotInPage(f, k);
    Splice(f, PageOf(k), io.broken)
  }

  /** The flash once the page is erased, the slot before is written back when the page
      holds one, and the image is written. */
  function Rewritten(f: Partition, k: nat, image: seq<byte>): (f': Partition)
    requires k < SlotCount(f) && |image| <= KEY_MANIFEST_SIZE
    ensures |f'| == |f|
  {
    SlotInPage(f, k);
    var page := PageOf(k);
    var f1 := Splice(f, page, Erased(PAGE_SIZE));
    var f2 := if k % 2 == 1 then Programmed(f1, page, f[page..page + KEY_MANIFEST_SIZE]) else f1;
    Programmed(f2, k * KEY_MANIFEST_SIZE, image)
  }

  /** Whether an append gets as far as erasing the page of its slot. */
  predicate ReachesErase(f: Partition, image: seq<byte>, io: AppendIo)
    requires |image| == KEY_MANIFEST_SIZE
  {
    && io.sourceOk && AcceptsImage(image)
    && var slot := AppendSlot(f, io.readable, 0); slot.Some? && (slot.value % 2 == 1 ==> io.readPageOk)
  }

  /** `cerberus_append_key_manifest` for the staged `image`: the flash after it and whether
      it succeeds. */
  function Append(f: Partition, image: seq<byte>, io: AppendIo): (r: (Partition, bool))
    requires |image| == KEY_MANIFEST_SIZE && AppendIoOk(io)
    ensures |r.0| == |f|
  {
    if !ReachesErase(f, image, io) then (f, false)
    else
      var k := AppendSlot(f, io.readable, 0).value;
      if !io.eraseOk || (k % 2 == 1 && !io.rewriteOk) || !io.writeOk then (Broken(f, k, io), false)
      else (Rewritten(f, k, image[..AppendLength(image)]), true)
  }

  /** What an append leaves in the page of slot `k`. */
  function PageAfter(f: Partition, k: nat, image: seq<byte>): (p: seq<byte>)
    requires k < SlotCount(f) && |image| <= KEY_MANIFEST_SIZE
    ensures |p| == PAGE_SIZE
  {
    var stored := image + Erased(KEY_MANIFEST_SIZE - |image|);
    if k % 2 == 1 then Slot(f, k - 1) + stored else stored + Erased(KEY_MANIFEST_SIZE)
  }

  lemma ErasedPage(f: seq<byte>, page: nat) returns (f1: seq<byte>)
    requires page + PAGE_SIZE <= |f|
    ensures f1 == Splice(f, page, Erased(PAGE_SIZE)) && |f1| == |f|
    ensures forall i :: page <= i < page + PAGE_SIZE ==> f1[i] == 0xFF
  {
    f1 := Splice(f, page, Erased(PAGE_SIZE));
    forall i | page <= i < page + PAGE_SIZE ensures f1[i] == 0xFF {
      assert f1[i] == f1[page..page + PAGE_SIZE][i - page];
    }
  }

  lemma EvenPage(f: Partition, k: nat, image: seq<byte>)
    requires k < SlotCount(f) && |image| <= KEY_MANIFEST_SIZE && k % 2 == 0
    ensures PageOf(k) + PAGE_SIZE <= |f| && Rewritten(f, k, image) == Splice(f, PageOf(k), PageAfter(f, k, image))
  {
    SlotInPage(f, k);
    var page := PageOf(k);
    var f1 := ErasedPage(f, page);
    ProgramErased(f1, page, image);
    SpliceInside(f, page, Erased(PAGE_SIZE), 0, image);
    assert Splice(Erased(PAGE_SIZE), 0, image) == PageAfter(f, k, image);
  }

  lemma OddPage(f: Partition, k: nat, image: seq<byte>)
    requires k < SlotCount(f) && |image| <= KEY_MANIFEST_SIZE && k % 2 == 1
    ensures PageOf(k) + PAGE_SIZE <= |f| && Rewritten(f, k, image) == Splice(f, PageOf(k), PageAfter(f, k, image))
  {
    SlotInPage(f, k);
    SlotInPage(f, k - 1);
    var page, kept, half := PageOf(k), Slot(f, k - 1), KEY_MANIFEST_SIZE;
    var f1 := ErasedPage(f, page);
    ProgramErased(f1, page, kept);
    SpliceInside(f, page, Erased(PAGE_SIZE), 0, kept);
    var p2 := Splice(Erased(PAGE_SIZE), 0, kept);
    assert p2 == kept + Erased(half);
    var f2 := Splice(f, page, p2);
    forall i | page + half <= i < page + PAGE_SIZE ensures f2[i] == 0xFF {
      assert f2[i] == f2[page..page + PAGE_SIZE][i - page];
    }
    ProgramErased(f2, page + half, image);
    SpliceInside(f, page, p2, half, image);
    assert Splice(p2, half, image) == PageAfter(f, k, image);
  }

  /** A copy into a part that was just copied. */
  lemma SpliceInside(s: seq<byte>, at: nat, t: seq<byte>, off: nat, u: seq<byte>)
    requires at + |t| <= |s| && off + |u| <= |t|
    ensures Splice(Splice(s, at, t), at + off, u) == Splice(s, at, Splice(t, off, u))
  {
    var x, y := Splice(Splice(s, at, t), at + off, u), Splice(s, at, Splice(t, off, u));
    forall i | 0 <= i < |s| ensures x[i] == y[i] {
    }
  }

  /** After an append each slot outside the page, and the slot before in the same page, is
      byte for byte what it was; the new slot holds the image. */
  lemma SlotsAfterRewrite(f: Partition, k: nat, image: seq<byte>, j: nat)
    requires k < SlotCount(f) && |image| <= KEY_MANIFEST_SIZE && j < SlotCount(f)
    ensures var f' := Rewritten(f, k, image);
            Slot(f', j) == if j == k then image + Erased(KEY_MANIFEST_SIZE - |image|)
                           else if k % 2 == 0 && j == k + 1 then Erased(KEY_MANIFEST_SIZE)
                           else Slot(f, j)
  {
    if k % 2 == 0 { EvenPage(f, k, image); } else { OddPage(f, k, image); }
    SlotInPage(f, k);
    SlotInPage(f, j);
    SlotOfPage(f, Rewritten(f, k, image), PageOf(k), PageAfter(f, k, image), j);
  }

  /** A slot of `g`, which is `f` with one page replaced. */
  lemma SlotOfPage(f: Partition, g: Partition, page: nat, p: seq<byte>, j: nat)
    requires page + PAGE_SIZE <= |f| && page % PAGE_SIZE == 0 && |p| == PAGE_SIZE && j < SlotCount(f)
    requires g == Splice(f, page, p)
    ensures SlotCount(g) == SlotCount(f)
    ensures Slot(g, j) == if j * KEY_MANIFEST_SIZE == page then p[..KEY_MANIFEST_SIZE]
                          else if j * KEY_MANIFEST_SIZE == page + KEY_MANIFEST_SIZE then p[KEY_MANIFEST_SIZE..]
                          else Slot(f, j)
  {
    var at := j * KEY_MANIFEST_SIZE;
    if at == page {
      SliceInside(f[..page], p, f[page + PAGE_SIZE..], 0, KEY_MANIFEST_SIZE);
    } else if at == page + KEY_MANIFEST_SIZE {
      SliceInside(f[..page], p, f[page + PAGE_SIZE..], KEY_MANIFEST_SIZE, KEY_MANIFEST_SIZE);
    } else {
      SlotsApart(j, page);
      SliceOutside(f, page, p, at, KEY_MANIFEST_SIZE);
    }
  }

  lemma SliceInside(a: seq<byte>, b: seq<byte>, c: seq<byte>, i: nat, n: nat)
    requires i + n <= |b|
    ensures (a + b + c)[|a| + i..|a| + i + n] == b[i..i + n]
  {
    var s, t := (a + b + c)[|a| + i..|a| + i + n], b[i..i + n];
    forall k | 0 <= k < n ensures s[k] == t[k] {
      assert s[k] == (a + b + c)[|a| + i + k];
    }
  }

  lemma SliceOutside(f: seq<byte>, page: nat, p: seq<byte>, at: nat, n: nat)
    requires page + |p| <= |f| && at + n <= |f| && (at + n <= page || at >= page + |p|)
    ensures (f[..page] + p + f[page + |p|..])[at..at + n] == f[at..at + n]
  {
    var g := f[..page] + p + f[page + |p|..];
    var s, t := g[at..at + n], f[at..at + n];
    forall k | 0 <= k < n ensures s[k] == t[k] {
      assert s[k] == g[at + k];
    }
  }

  lemma SlotsApart(j: nat, page: nat)
    requires page % PAGE_SIZE == 0
    requires j * KEY_MANIFEST_SIZE != page && j * KEY_MANIFEST_SIZE != page + KEY_MANIFEST_SIZE
    ensures j * KEY_MANIFEST_SIZE + KEY_MANIFEST_SIZE <= page || j * KEY_MANIFEST_SIZE >= page + PAGE_SIZE
  {
    var q := page / PAGE_SIZE;
    assert page == q * PAGE_SIZE == 2 * q * KEY_MANIFEST_SIZE;
    if j < 2 * q {
      assert j * KEY_MANIFEST_SIZE + KEY_MANIFEST_SIZE <= page;
    } else {
      assert j >= 2 * q + 2;
    }
  }

  /** When the occupied slots form a prefix, a successful append keeps each of them byte
      for byte, whichever headers could be read. */
  lemma AppendConserves(f: Partition, image: seq<byte>, io: AppendIo, n: nat, j: nat)
    requires |image| == KEY_MANIFEST_SIZE && AppendIoOk(io) && IsPrefix(f, n) && j < n
    requires Append(f, image, io).1
    ensures Slot(Append(f, image, io).0, j) == Slot(f, j)
  {
    var k := AppendSlot(f, io.readable, 0).value;
    assert !Occupied(f, k);
    SlotsAfterRewrite(f, k, image[..AppendLength(image)], j);
  }

  /** What a slot holds once an image is written to it. */
  function Stored(image: seq<byte>): (s: seq<byte>)
    requires |image| == KEY_MANIFEST_SIZE && AppendLength(image) <= KEY_MANIFEST_SIZE
    ensures |s| == KEY_MANIFEST_SIZE
  {
    image[..AppendLength(image)] + Erased(KEY_MANIFEST_SIZE - AppendLength(image))
  }

  /** Whether the written part of an image marks its slot as occupied. */
  predicate MarksSlot(image: seq<byte>)
    requires |image| == KEY_MANIFEST_SIZE && AppendLength(image) <= KEY_MANIFEST_SIZE
  {
    IsKeyManifest(Stored(image))
  }

  lemma OccupiedAfter(f: Partition, k: nat, image: seq<byte>, j: nat)
    requires |image| == KEY_MANIFEST_SIZE && AppendLength(image) <= KEY_MANIFEST_SIZE && MarksSlot(image)
    requires k < SlotCount(f) && j < SlotCount(f)
    ensures Occupied(Rewritten(f, k, image[..AppendLength(image)]), j) <==>
              j == k || (Occupied(f, j) && !(k % 2 == 0 && j == k + 1))
  {
    var g := Rewritten(f, k, image[..AppendLength(image)]);
    SlotsAfterRewrite(f, k, image[..AppendLength(image)], j);
    ErasedIsFree();
    if j == k {
      assert Slot(g, j) == Stored(image);
    } else if k % 2 == 0 && j == k + 1 {
      assert Slot(g, j) == Erased(KEY_MANIFEST_SIZE);
    } else {
      assert Slot(g, j) == Slot(f, j);
    }
  }

  /** The prefix grows by the new slot exactly when the first free slot's header could be
      read: a failed read there makes the scan pass over it and leaves a gap. */
  lemma AppendKeepsPrefix(f: Partition, image: seq<byte>, io: AppendIo, n: nat)
    requires |image| == KEY_MANIFEST_SIZE && AppendIoOk(io) && IsPrefix(f, n) && Append(f, image, io).1
    requires MarksSlot(image)
    ensures n < SlotCount(f)
    ensures IsPrefix(Append(f, image, io).0, n + 1) <==> io.readable(n)
    ensures !io.readable(n) ==> forall m :: !IsPrefix(Append(f, image, io).0, m)
  {
    var k := AppendSlot(f, io.readable, 0).value;
    var f' := Append(f, image, io).0;
    assert !Occupied(f, k);
    forall j | 0 <= j < SlotCount(f)
      ensures Occupied(f', j) <==> j == k || (Occupied(f, j) && !(k % 2 == 0 && j == k + 1))
    {
      OccupiedAfter(f, k, image, j);
    }
    if io.readable(n) {
      assert k == n;
    } else {
      assert k > n && Occupied(f', k) && !Occupied(f', n);
    }
  }

  lemma ErasedIsFree()
    ensures !IsKeyManifest(Erased(KEY_MANIFEST_SIZE))
  {
    var s := Erased(KEY_MANIFEST_SIZE);
    assert s[2..4] == [0xFF] + s[3..4];
    assert FromLittleEndian(s[2..4]) % 256 == 0xFF;
  }

  /** The half of a broken page that slot `j` lies in. */
  function BrokenHalf(io: AppendIo, j: nat): seq<byte>
    requires AppendIoOk(io)
  {
    if j % 2 == 0 then io.broken[..KEY_MANIFEST_SIZE] else io.broken[KEY_MANIFEST_SIZE..]
  }

  lemma SlotOfBroken(f: Partition, k: nat, io: AppendIo, j: nat)
    requires k < SlotCount(f) && AppendIoOk(io) && j < SlotCount(f)
    ensures Slot(Broken(f, k, io), j) == if PageOf(j) == PageOf(k) then BrokenHalf(io, j) else Slot(f, j)
  {
    SlotInPage(f, k);
    SlotInPage(f, j);
    SlotOfPage(f, Broken(f, k, io), PageOf(k), io.broken, j);
  }

  /** A failed append keeps a slot exactly when it does not reach the erase, the slot is in
      another page, or the broken page happens to hold its bytes. */
  lemma FailedAppendKeeps(f: Partition, image: seq<byte>, io: AppendIo, j: nat)
    requires |image| == KEY_MANIFEST_SIZE && AppendIoOk(io) && !Append(f, image, io).1 && j < SlotCount(f)
    ensures Slot(Append(f, image, io).0, j) == Slot(f, j) <==>
              !ReachesErase(f, image, io) || PageOf(j) != PageOf(AppendSlot(f, io.readable, 0).value)
              || BrokenHalf(io, j) == Slot(f, j)
  {
    if ReachesErase(f, image, io) {
      SlotOfBroken(f, AppendSlot(f, io.readable, 0).value, io, j);
    }
  }

  /** An append, whatever its result, keeps an occupied slot exactly when it succeeds, does
      not reach the erase, has its slot in another page, or leaves the bytes by chance. */
  lemma AppendKeepsSlot(f: Partition, image: seq<byte>, io: AppendIo, n: nat, j: nat)
    requires |image| == KEY_MANIFEST_SIZE && AppendIoOk(io) && IsPrefix(f, n) && j < n
    ensures Slot(Append(f, image, io).0, j) == Slot(f, j) <==>
              Append(f, image, io).1 || !ReachesErase(f, image, io)
              || PageOf(j) != PageOf(AppendSlot(f, io.readable, 0).value)
              || io.broken[..KEY_MANIFEST_SIZE] == Slot(f, j)
  {
    if Append(f, image, io).1 {
      AppendConserves(f, image, io, n, j);
    } else {
      FailedAppendKeeps(f, image, io, j);
      if ReachesErase(f, image, io) {
        FirstFreeIs(f, io.readable, n);
        SharedPage(j, AppendSlot(f, io.readable, 0).value);
      }
    }
  }

  /** The only earlier slot in the page of slot `k` is the one before it, in the first half. */
  lemma SharedPage(j: nat, k: nat)
    requires j < k
    ensures PageOf(j) == PageOf(k) <==> j + 1 == k && k % 2 == 1
  {
  }

  ghost predicate KeepsSlots(f: Partition, f': Partition, n: nat)
    requires |f| == |f'| && n <= SlotCount(f)
  {
    forall j :: 0 <= j < n ==> Slot(f', j) == Slot(f, j)
  }

  /** Another course of the flash from the erase on. */
  ghost predicate SameUntilErase(io: AppendIo, io': AppendIo) {
    && io'.sourceOk == io.sourceOk && io'.readable == io.readable && io'.readPageOk == io.readPageOk
    && AppendIoOk(io')
  }

  /** What can be known before an append: every failure would keep all earlier slots exactly
      when it is refused before the erase, or its slot is even, or it skips a free slot. */
  lemma FailuresKeepEarlier(f: Partition, image: seq<byte>, io: AppendIo, n: nat)
    requires |image| == KEY_MANIFEST_SIZE && AppendIoOk(io) && IsPrefix(f, n)
    ensures (forall io' :: SameUntilErase(io, io') && !Append(f, image, io').1 ==>
               KeepsSlots(f, Append(f, image, io').0, n))
            <==> !ReachesErase(f, image, io) || n % 2 == 0 || AppendSlot(f, io.readable, 0) != Some(n)
  {
    if !ReachesErase(f, image, io) || n % 2 == 0 || AppendSlot(f, io.readable, 0) != Some(n) {
      forall io' | SameUntilErase(io, io') && !Append(f, image, io').1
        ensures KeepsSlots(f, Append(f, image, io').0, n) {
        SafeFailure(f, image, io', n);
      }
    } else {
      var io' := io.(eraseOk := false, broken := Erased(PAGE_SIZE));
      assert SameUntilErase(io, io') && !Append(f, image, io').1;
      FailedAppendCanLose(f, image, io', n);
      assert Slot(Append(f, image, io').0, n - 1) != Slot(f, n - 1);
    }
  }

  lemma SafeFailure(f: Partition, image: seq<byte>, io: AppendIo, n: nat)
    requires |image| == KEY_MANIFEST_SIZE && AppendIoOk(io) && IsPrefix(f, n) && !Append(f, image, io).1
    requires !ReachesErase(f, image, io) || n % 2 == 0 || AppendSlot(f, io.readable, 0) != Some(n)
    ensures KeepsSlots(f, Append(f, image, io).0, n)
  {
    if ReachesErase(f, image, io) {
      FirstFreeIs(f, io.readable, n);
      BrokenKeepsEarlier(f, AppendSlot(f, io.readable, 0).value, io, n);
    }
  }

  lemma BrokenKeepsEarlier(f: Partition, k: nat, io: AppendIo, n: nat)
    requires k < SlotCount(f) && AppendIoOk(io) && n <= k && (n < k || k % 2 == 0)
    ensures KeepsSlots(f, Broken(f, k, io), n)
  {
    var g := Broken(f, k, io);
    forall j | 0 <= j < n ensures Slot(g, j) == Slot(f, j) {
      SharedPage(j, k);
      SlotOfBroken(f, k, io, j);
    }
  }

  /** A failure after the erase can cost the slot that shares the page: here it is left
      erased, its key manifest gone. */
  lemma FailedAppendCanLose(f: Partition, image: seq<byte>, io: AppendIo, n: nat)
    requires |image| == KEY_MANIFEST_SIZE && AppendIoOk(io) && ReachesErase(f, image, io)
    requires IsPrefix(f, n) && n < SlotCount(f) && n % 2 == 1 && AppendSlot(f, io.readable, 0) == Some(n)
    requires !(io.eraseOk && io.rewriteOk && io.writeOk) && io.broken == Erased(PAGE_SIZE)
    ensures Occupied(f, n - 1) && !Occupied(Append(f, image, io).0, n - 1)
  {
    SharedPage(n - 1, n);
    BrokenIsFree(f, n, io, n - 1);
  }

  lemma BrokenIsFree(f: Partition, k: nat, io: AppendIo, j: nat)
    requires k < SlotCount(f) && AppendIoOk(io) && io.broken == Erased(PAGE_SIZE)
    requires j < SlotCount(f) && PageOf(j) == PageOf(k)
    ensures !Occupied(Broken(f, k, io), j)
  {
    SlotOfBroken(f, k, io, j);
    assert BrokenHalf(io, j) == Erased(KEY_MANIFEST_SIZE);
    ErasedIsFree();
  }

  // ----- finding a code signing key

  /** `cerberus_pfr_get_key_manifest` behind the scans' own test, which lets a slot pass
      when its format or its magic number is right. */
  function SlotManifest(f: Partition, k: nat): Option<KeyManifest>
    requires k < SlotCount(f)
  {
    var s := Slot(f, k);
    if Format(s, 0) != UPDATE_FORMAT_TYPE_KEYM && Magic(s, 0) != KEY_MANAGEMENT_HEADER_MAGIC then None
    else if !HeaderMagicOk(Format(s, 0), Magic(s, 0)) then None
    else
      HeaderOfSlot(f, k);
      ManifestIn(f, k * KEY_MANIFEST_SIZE)
  }

  lemma HeaderOfSlot(f: Partition, k: nat)
    requires k < SlotCount(f)
    ensures k * KEY_MANIFEST_SIZE + KEY_MANIFEST_SIZE <= |f|
  {
    SlotInPage(f, k);
  }

  /** A slot's manifest lies inside the slot. */
  predicate WithinSlot(f: Partition, k: nat)
    requires k < SlotCount(f)
  {
    HeaderLength(Slot(f, k), 0) + SECTION_SIZE + MANIFEST_SIZE <= KEY_MANIFEST_SIZE
  }

  lemma ManifestOfSlot(f: Partition, k: nat)
    requires k < SlotCount(f) && WithinSlot(f, k)
    ensures k * KEY_MANIFEST_SIZE + KEY_MANIFEST_SIZE <= |f|
    ensures ManifestIn(f, k * KEY_MANIFEST_SIZE) == ManifestIn(Slot(f, k), 0)
  {
    HeaderOfSlot(f, k);
    var at, s := k * KEY_MANIFEST_SIZE, Slot(f, k);
    SubSlice(f, at, KEY_MANIFEST_SIZE, 0, 2);
    var section := HeaderLength(s, 0);
    var body := section + SECTION_SIZE;
    SectionOfSlot(f, at, section);
    BodyOfSlot(f, at, body);
    HashListOfSlot(f, at, body + 6);
  }

  lemma BodyOfSlot(f: seq<byte>, at: nat, off: nat)
    requires at + KEY_MANIFEST_SIZE <= |f| && off + 6 <= KEY_MANIFEST_SIZE
    ensures var s := f[at..at + KEY_MANIFEST_SIZE];
            Field(f, at + off, 4) == Field(s, off, 4) && s[off + 4] == f[at + off + 4] && s[off + 5] == f[at + off + 5]
  {
    SubSlice(f, at, KEY_MANIFEST_SIZE, off, 4);
  }

  lemma SectionOfSlot(f: seq<byte>, at: nat, off: nat)
    requires at + KEY_MANIFEST_SIZE <= |f| && off + SECTION_SIZE <= KEY_MANIFEST_SIZE
    ensures SectionOk(f, at + off) == SectionOk(f[at..at + KEY_MANIFEST_SIZE], off)
  {
    SubSlice(f, at, KEY_MANIFEST_SIZE, off, 2);
    SubSlice(f, at, KEY_MANIFEST_SIZE, off + 4, 4);
    SubSlice(f, at, KEY_MANIFEST_SIZE, off + 12, 4);
  }

  lemma HashListOfSlot(f: seq<byte>, at: nat, off: nat)
    requires at + KEY_MANIFEST_SIZE <= |f| && off + (MAX_KEY_ID + 1) * KEY_HASH_SIZE <= KEY_MANIFEST_SIZE
    ensures HashList(f, at + off) == HashList(f[at..at + KEY_MANIFEST_SIZE], off)
  {
    var a, b := HashList(f, at + off), HashList(f[at..at + KEY_MANIFEST_SIZE], off);
    forall i | 0 <= i <= MAX_KEY_ID ensures a[i] == b[i] {
      SubSlice(f, at, KEY_MANIFEST_SIZE, off + KEY_HASH_SIZE * i, KEY_HASH_SIZE);
    }
  }

  /** A key's digest for each hash type, in a 64-byte buffer. */
  type Digests = csk: nat -> seq<byte> | forall t :: |csk(t)| == KEY_HASH_SIZE witness t => Zeros(KEY_HASH_SIZE)

  /** The first key of a manifest with the key's hash. */
  function FindKeyId(m: KeyManifest, csk: Digests, id: nat): (r: Option<nat>)
    requires ManifestOk(m) && HashLength(m.hashType) > 0
    ensures r.Some? ==> id <= r.value <= MAX_KEY_ID && r.value < m.keyCount && KeyAt(m, csk, r.value)
    ensures forall j :: id <= j <= MAX_KEY_ID && j < (if r.Some? then r.value else m.keyCount) ==> !KeyAt(m, csk, j)
    decreases MAX_KEY_ID + 1 - id
  {
    if id > MAX_KEY_ID || id >= m.keyCount then None
    else if KeyAt(m, csk, id) then Some(id)
    else FindKeyId(m, csk, id + 1)
  }

  predicate KeyAt(m: KeyManifest, csk: Digests, id: nat)
    requires ManifestOk(m) && id <= MAX_KEY_ID
  {
    var n := HashLength(m.hashType);
    m.hashes[id][..n] == csk(m.hashType)[..n]
  }

  lemma SlotManifestOk(f: Partition, k: nat)
    requires k < SlotCount(f)
    ensures SlotManifest(f, k).Some? ==> ManifestOk(SlotManifest(f, k).value)
  {
  }

  /** What a scan finds in one slot. */
  function FindInSlot(f: Partition, csk: Digests, readable: nat -> bool, k: nat): Option<nat>
    requires k < SlotCount(f)
  {
    SlotManifestOk(f, k);
    var m := SlotManifest(f, k);
    if !readable(k) || m.None? || HashLength(m.value.hashType) == 0 then None else FindKeyId(m.value, csk, 0)
  }

  /** The first slot from `k` on with a result. */
  function FirstFound(found: seq<Option<nat>>, k: nat): (r: Option<(nat, nat)>)
    requires k <= |found|
    ensures r.Some? ==> k <= r.value.0 < |found| && found[r.value.0] == Some(r.value.1)
    ensures forall j :: k <= j < (if r.Some? then r.value.0 else |found|) ==> found[j].None?
    decreases |found| - k
  {
    if k == |found| then None
    else if found[k].Some? then Some((k, found[k].value))
    else FirstFound(found, k + 1)
  }

  function SlotResults(f: Partition, csk: Digests, readable: nat -> bool): (rs: seq<Option<nat>>)
    ensures |rs| == SlotCount(f) && forall k :: 0 <= k < |rs| ==> rs[k] == FindInSlot(f, csk, readable, k)
  {
    seq(SlotCount(f), k requires 0 <= k < SlotCount(f) => FindInSlot(f, csk, readable, k))
  }

  /** `cerberus_pfr_find_key_manifest_id_and_key_id`: the first slot that has the key, and
      its key id there. `readable` tells for which slots all reads succeed. */
  function Find(f: Partition, csk: Digests, readable: nat -> bool): Option<(nat, nat)> {
    FirstFound(SlotResults(f, csk, readable), 0)
  }

  lemma ResultsKept(f: Partition, f': Partition, csk: Digests, readable: nat -> bool, n: nat)
    requires |f| == |f'| && n <= SlotCount(f)
    requires forall j :: 0 <= j < n ==> WithinSlot(f, j) && Slot(f', j) == Slot(f, j)
    ensures SlotResults(f', csk, readable)[..n] == SlotResults(f, csk, readable)[..n]
  {
    var a, b := SlotResults(f, csk, readable), SlotResults(f', csk, readable);
    forall j | 0 <= j < n ensures a[j] == b[j] {
      FindInSlotKept(f, f', csk, readable, j);
    }
  }

  lemma FirstFoundKept(a: seq<Option<nat>>, b: seq<Option<nat>>, n: nat)
    requires |a| == |b| && n <= |a| && a[..n] == b[..n]
    requires FirstFound(a, 0).Some? && FirstFound(a, 0).value.0 < n
    ensures FirstFound(b, 0) == FirstFound(a, 0)
  {
    var (k, id) := FirstFound(a, 0).value;
    assert forall j :: 0 <= j < n ==> a[j] == a[..n][j] && b[j] == b[..n][j];
    assert b[k] == Some(id);
  }

  /** A key is found in an occupied slot, or in one that holds a cancellation or
      decommission capsule: the scan's test is weaker than the append's. */
  lemma FoundIsOccupied(f: Partition, k: nat)
    requires k < SlotCount(f) && SlotManifest(f, k).Some?
    ensures Occupied(f, k) || Format(Slot(f, k), 0) == UPDATE_FORMAT_TYPE_KCC
            || Format(Slot(f, k), 0) == UPDATE_FORMAT_TYPE_DCC
  {
  }

  /** The occupied slots form a prefix, and each holds its manifest inside the slot. */
  predicate StoreOk(f: Partition, n: nat) {
    IsPrefix(f, n) && forall k :: 0 <= k < n ==> WithinSlot(f, k)
  }

  lemma SlotManifestKept(f: Partition, f': Partition, k: nat)
    requires |f| == |f'| && k < SlotCount(f) && WithinSlot(f, k) && Slot(f', k) == Slot(f, k)
    ensures SlotManifest(f', k) == SlotManifest(f, k)
  {
    ManifestOfSlot(f, k);
    ManifestOfSlot(f', k);
  }

  lemma FindInSlotKept(f: Partition, f': Partition, csk: Digests, readable: nat -> bool, k: nat)
    requires |f| == |f'| && k < SlotCount(f) && WithinSlot(f, k) && Slot(f', k) == Slot(f, k)
    ensures FindInSlot(f', csk, readable, k) == FindInSlot(f, csk, readable, k)
  {
    SlotManifestKept(f, f', k);
  }

  /** An append does not move a key that was already found: it keeps its manifest id and
      key id, so that its cancellation bits keep meaning the same key. */
  lemma AppendKeepsFound(f: Partition, image: seq<byte>, io: AppendIo, n: nat, csk: Digests, readable: nat -> bool)
    requires |image| == KEY_MANIFEST_SIZE && AppendIoOk(io) && StoreOk(f, n) && Append(f, image, io).1
    requires Find(f, csk, readable).Some? && Find(f, csk, readable).value.0 < n
    ensures Find(Append(f, image, io).0, csk, readable) == Find(f, csk, readable)
  {
    var f' := Append(f, image, io).0;
    forall j | 0 <= j < n ensures Slot(f', j) == Slot(f, j) {
      AppendConserves(f, image, io, n, j);
    }
    ResultsKept(f, f', csk, readable, n);
    FirstFoundKept(SlotResults(f, csk, readable), SlotResults(f', csk, readable), n);
  }

  lemma WithinAfter(f: Partition, n: nat, image: seq<byte>, j: nat)
    requires |image| == KEY_MANIFEST_SIZE && AcceptsImage(image) && MarksSlot(image)
    requires j <= n < SlotCount(f) && (j < n ==> WithinSlot(f, j))
    ensures WithinSlot(Rewritten(f, n, image[..AppendLength(image)]), j)
  {
    SlotsAfterRewrite(f, n, image[..AppendLength(image)], j);
    AcceptedWithinSlot(image);
  }

  lemma AllWithinAfter(f: Partition, n: nat, image: seq<byte>)
    requires |image| == KEY_MANIFEST_SIZE && AcceptsImage(image) && MarksSlot(image)
    requires n < SlotCount(f) && forall k :: 0 <= k < n ==> WithinSlot(f, k)
    ensures forall k :: 0 <= k < n + 1 ==> WithinSlot(Rewritten(f, n, image[..AppendLength(image)]), k)
  {
    forall k | 0 <= k < n + 1 ensures WithinSlot(Rewritten(f, n, image[..AppendLength(image)]), k) {
      WithinAfter(f, n, image, k);
    }
  }

  /** Appending keeps the store's invariant exactly when the first free slot's header could
      be read. */
  lemma AppendKeepsStore(f: Partition, image: seq<byte>, io: AppendIo, n: nat)
    requires |image| == KEY_MANIFEST_SIZE && AppendIoOk(io) && StoreOk(f, n) && Append(f, image, io).1
    requires MarksSlot(image)
    ensures StoreOk(Append(f, image, io).0, n + 1) <==> io.readable(n)
  {
    AppendKeepsPrefix(f, image, io, n);
    if io.readable(n) {
      AppendIsRewrite(f, image, io, n);
      AllWithinAfter(f, n, image);
    } else {
      assert !IsPrefix(Append(f, image, io).0, n + 1);
    }
  }

  lemma AppendIsRewrite(f: Partition, image: seq<byte>, io: AppendIo, n: nat)
    requires |image| == KEY_MANIFEST_SIZE && AppendIoOk(io) && IsPrefix(f, n) && Append(f, image, io).1
    requires io.readable(n)
    ensures n < SlotCount(f) && AcceptsImage(image)
    ensures Append(f, image, io).0 == Rewritten(f, n, image[..AppendLength(image)])
  {
    FirstFreeIs(f, io.readable, n);
  }

  lemma FirstFreeIs(f: Partition, readable: nat -> bool, n: nat)
    requires IsPrefix(f, n) && AppendSlot(f, readable, 0).Some?
    ensures AppendSlot(f, readable, 0).value >= n
    ensures readable(n) ==> AppendSlot(f, readable, 0) == Some(n)
  {
    var k := AppendSlot(f, readable, 0).value;
    assert Occupied(f, k) <==> k < n;
    assert n < SlotCount(f) ==> !Occupied(f, n);
  }

  lemma TwoByteField(s: seq<byte>, at: nat)
    requires at + 2 <= |s|
    ensures Field(s, at, 2) == s[at] as nat + 256 * (s[at + 1] as nat)
  {
    var t := s[at..at + 2];
    assert t[1..] == [s[at + 1]] && t[1..][1..] == [];
    assert FromLittleEndian(t[1..]) == s[at + 1] as nat;
  }

  /** A slot that is marked holds the image's header length, so that an accepted manifest
      lies inside the slot. */
  lemma AcceptedWithinSlot(image: seq<byte>)
    requires |image| == KEY_MANIFEST_SIZE && AcceptsImage(image) && MarksSlot(image)
    ensures HeaderLength(Stored(image), 0) + SECTION_SIZE + MANIFEST_SIZE <= KEY_MANIFEST_SIZE
  {
    var s := Stored(image);
    TwoByteField(s, 2);
    assert s[3] == 0;
    assert AppendLength(image) >= 2;
    assert s[0..2] == image[0..2];
  }

  // ----- cancellation and the store

  /** The manifests the cancellation loop looks at. */
  function CancelSlots(f: Partition, readable: nat -> bool): (slots: Slots)
    ensures |slots| == SlotCount(f)
    ensures forall k :: 0 <= k < |slots| ==> slots[k] == if readable(k) then SlotManifest(f, k) else None
  {
    var slots :=
      seq(SlotCount(f), k requires 0 <= k < SlotCount(f) => if readable(k) then SlotManifest(f, k) else None);
    assert forall k :: 0 <= k < |slots| && slots[k].Some? ==> ManifestOk(slots[k].value) by {
      forall k | 0 <= k < |slots| ensures slots[k].Some? ==> ManifestOk(slots[k].value) { SlotManifestOk(f, k); }
    }
    slots
  }

  /** An append leaves what the cancellation loop sees in every occupied slot. */
  lemma AppendKeepsMatches(f: Partition, image: seq<byte>, io: AppendIo, n: nat, readable: nat -> bool, k: nat)
    requires |image| == KEY_MANIFEST_SIZE && AppendIoOk(io) && StoreOk(f, n) && Append(f, image, io).1 && k < n
    ensures CancelSlots(Append(f, image, io).0, readable)[k] == CancelSlots(f, readable)[k]
  {
    AppendConserves(f, image, io, n, k);
    SlotManifestKept(f, Append(f, image, io).0, k);
  }

  /** The cancellation manifest lists the key that `Find` locates, by its id and hash. */
  predicate Lists(kc: KcManifest, n: nat, m: KeyManifest, id: nat, csk: Digests)
    requires KcManifestOk(kc) && n < |kc.keys|
  {
    kc.hashType == m.hashType && kc.keys[n].id == id
    && kc.keys[n].hash[..HashLength(kc.hashType)] == csk(kc.hashType)[..HashLength(kc.hashType)]
  }

  /** A slot that has the hash at this id, but beyond the number of its keys: the
      cancellation loop does not look at that number, the search for a key does. */
  predicate BeyondCount(m: KeyManifest, id: nat) {
    id >= m.keyCount
  }

  lemma {:induction false} FindKeyIdFinds(m: KeyManifest, csk: Digests, from: nat, id: nat)
    requires ManifestOk(m) && HashLength(m.hashType) > 0 && from <= id <= MAX_KEY_ID && id < m.keyCount
    requires KeyAt(m, csk, id)
    ensures FindKeyId(m, csk, from).Some?
    decreases MAX_KEY_ID - from
  {
    if !KeyAt(m, csk, from) {
      FindKeyIdFinds(m, csk, from + 1, id);
    }
  }

  /** A slot before the one that `Find` returns matches only beyond its key count. */
  lemma EarlierMatchIsBeyondCount(f: Partition, csk: Digests, readable: nat -> bool, seen: nat -> bool, kc: KcManifest,
                                  n: nat, x: nat)
    requires KcManifestOk(kc) && n < |kc.keys| && x < SlotCount(f) && readable(x)
    requires kc.keys[n].hash[..HashLength(kc.hashType)] == csk(kc.hashType)[..HashLength(kc.hashType)]
    requires FindInSlot(f, csk, readable, x).None? && Matches(CancelSlots(f, seen), x, kc, n)
    ensures BeyondCount(SlotManifest(f, x).value, kc.keys[n].id)
  {
    var m := SlotManifest(f, x).value;
    SlotManifestOk(f, x);
    if kc.keys[n].id < m.keyCount {
      FindKeyIdFinds(m, csk, 0, kc.keys[n].id);
    }
  }

  /** Cancelling works against the search for keys: when the listed key is the one that
      `Find` locates in slot `k` under `id`, it is refused there afterwards exactly when it
      was before, or the cancellation sees slot `k` and no earlier slot matches it. */
  lemma CancelledKeyIsRefused(f: Partition, u: Ufm, csk: Digests, readable: nat -> bool, seen: nat -> bool, pcType: nat,
                              kc: KcManifest, ios: Ios, n: nat, k: nat, id: nat, readOk: bool)
    requires KcManifestOk(kc) && n < |kc.keys| && PolicyAllowed(pcType, kc.policy)
    requires FlashWorks(ios, CancelSlots(f, seen), kc)
    requires Find(f, csk, readable) == Some((k, id)) && SlotManifest(f, k).Some?
    requires Lists(kc, n, SlotManifest(f, k).value, id, csk)
    ensures var slots := CancelSlots(f, seen); var u' := CancelCskKeys(u, pcType, kc, slots, ios).0;
            !VerifyCskKeyId(u', pcType, k, id, readOk) <==>
              !VerifyCskKeyId(u, pcType, k, id, readOk) || (seen(k) && !MatchesBefore(slots, k, kc, n))
  {
    var slots := CancelSlots(f, seen);
    SlotManifestOk(f, k);
    AllowedIsKnown(pcType, kc.policy);
    CancelsFirstMatches(u, pcType, kc, slots, ios, k, id);
    OneKeyOneMatch(slots, kc, n, k);
  }

  /** Listed keys with one id that match one slot have one hash: they match alike. */
  lemma OneKeyOneMatch(slots: Slots, kc: KcManifest, n: nat, k: nat)
    requires KcManifestOk(kc) && n < |kc.keys| && k < |slots| && (slots[k].Some? ==> Matches(slots, k, kc, n))
    ensures FirstMatched(slots, k, kc, kc.keys[n].id) <==> slots[k].Some? && !MatchesBefore(slots, k, kc, n)
  {
    forall j | 0 <= j < |kc.keys| && kc.keys[j].id == kc.keys[n].id && Matches(slots, k, kc, j)
      ensures MatchesBefore(slots, k, kc, j) <==> MatchesBefore(slots, k, kc, n)
    {
      assert forall x :: 0 <= x < k ==> (Matches(slots, x, kc, j) <==> Matches(slots, x, kc, n));
    }
  }

  /** A hash that an earlier slot holds at the listed id takes the cancellation: it is
      reported as a success, and the key is accepted in its own slot as before. */
  lemma EarlierMatchTakesCancellation(f: Partition, u: Ufm, csk: Digests, readable: nat -> bool, seen: nat -> bool,
                                      pcType: nat, kc: KcManifest, ios: Ios, k: nat, id: nat, readOk: bool, x: nat)
    requires KcManifestOk(kc) && |kc.keys| == 1 && PolicyAllowed(pcType, kc.policy)
    requires FlashWorks(ios, CancelSlots(f, seen), kc)
    requires Find(f, csk, readable) == Some((k, id)) && SlotManifest(f, k).Some?
    requires Lists(kc, 0, SlotManifest(f, k).value, id, csk)
    requires x < k && Matches(CancelSlots(f, seen), x, kc, 0)
    ensures var (u', ok) := CancelCskKeys(u, pcType, kc, CancelSlots(f, seen), ios);
            ok && VerifyCskKeyId(u', pcType, k, id, readOk) == VerifyCskKeyId(u, pcType, k, id, readOk)
  {
    CancelledKeyIsRefused(f, u, csk, readable, seen, pcType, kc, ios, 0, k, id, readOk);
    OnlyKeyMatches(CancelSlots(f, seen), kc, x);
    CancelSucceeds(u, pcType, kc, CancelSlots(f, seen), ios);
  }

  lemma OnlyKeyMatches(slots: Slots, kc: KcManifest, x: nat)
    requires KcManifestOk(kc) && |kc.keys| == 1 && x < |slots| && Matches(slots, x, kc, 0)
    ensures AllMatch(slots, kc)
  {
    assert MatchesBefore(slots, |slots|, kc, 0);
  }

  // ----- the partition as one object

  class KeyPartition {
    const flash: array<byte>

    ghost predicate Valid()
      reads this
    {
      flash.Length >= PAGE_SIZE && flash.Length % PAGE_SIZE == 0
    }

    ghost function Contents(): Partition
      requires Valid()
      reads this, flash
    {
      flash[..]
    }

    constructor (pages: nat)
      requires pages > 0
      ensures Valid() && fresh(flash) && flash.Length == pages * PAGE_SIZE
    {
      flash := new byte[pages * PAGE_SIZE](_ => 0xFF);
    }

    /** `cerberus_pfr_get_key_manifest_append_addr`. */
    method FindAppendSlot(readable: nat -> bool) returns (slot: Option<nat>)
      requires Valid()
      ensures slot == AppendSlot(Contents(), readable, 0)
    {
      ghost var f := Contents();
      var k := 0;
      while k < KEY_MANIFEST_MAX_COUNT
        invariant k <= SlotCount(f)
        invariant AppendSlot(f, readable, k) == AppendSlot(f, readable, 0)
      {
        var address := k * KEY_MANIFEST_SIZE;
        if address >= flash.Length {
          break;
        }
        SlotCovered(f, k);
        if readable(k) {
          var header := flash[address..address + KEY_MANIFEST_SIZE];
          assert header == Slot(f, k);
          if !(Format(header, 0) == UPDATE_FORMAT_TYPE_KEYM && Magic(header, 0) == KEY_MANAGEMENT_HEADER_MAGIC) {
            return Some(k);
          }
        }
        k := k + 1;
      }
      return None;
    }

    /** Erases a page. */
    method Erase(page: nat)
      requires Valid() && page + PAGE_SIZE <= flash.Length
      modifies flash
      ensures Contents() == Splice(old(Contents()), page, Erased(PAGE_SIZE))
    {
      CopyInto(flash, page, Erased(PAGE_SIZE));
    }

    /** Programs bytes, clearing bits only. */
    method ProgramBytes(at: nat, data: seq<byte>)
      requires Valid() && at + |data| <= flash.Length
      modifies flash
      ensures Contents() == Programmed(old(Contents()), at, data)
    {
      ghost var f := Contents();
      var i := 0;
      while i < |data|
        invariant i <= |data|
        invariant forall j :: 0 <= j < flash.Length ==>
                    flash[j] == if at <= j < at + i then And(f[j], data[j - at]) else f[j]
      {
        flash[at + i] := And(flash[at + i], data[i]);
        i := i + 1;
      }
      var r := Programmed(f, at, data);
      forall j | 0 <= j < |f| ensures flash[j] == r[j] {
      }
    }

    /** A failed operation: the page is left as `broken`. */
    method Break(page: nat, broken: seq<byte>)
      requires Valid() && page + PAGE_SIZE <= flash.Length && |broken| == PAGE_SIZE
      modifies flash
      ensures Contents() == Splice(old(Contents()), page, broken)
    {
      CopyInto(flash, page, broken);
    }

    /** Erases the page of a slot, writes back the slot before it when they share the page,
        and writes the slot. */
    method RewriteSlot(k: nat, buffer: array<byte>, length: nat)
      requires Valid() && k < SlotCount(Contents()) && buffer != flash && buffer.Length == PAGE_SIZE
      requires length <= KEY_MANIFEST_SIZE && PageOf(k) + PAGE_SIZE <= flash.Length
      requires k % 2 == 1 ==> buffer[KEY_MANIFEST_SIZE..] == flash[PageOf(k)..PageOf(k) + KEY_MANIFEST_SIZE]
      modifies flash
      ensures Contents() == Rewritten(old(Contents()), k, buffer[..length])
    {
      SlotInPage(Contents(), k);
      var target, page := k * KEY_MANIFEST_SIZE, PageOf(k);
      Erase(page);
      if target != page {
        ProgramBytes(page, buffer[KEY_MANIFEST_SIZE..]);
      }
      ProgramBytes(target, buffer[..length]);
    }

    /** The page buffer: the staged image in the first half, and in the second the slot
        that shares the new slot's page. */
    method FillPageBuffer(image: seq<byte>, k: nat) returns (buffer: array<byte>)
      requires Valid() && |image| == KEY_MANIFEST_SIZE && PageOf(k) + PAGE_SIZE <= flash.Length
      ensures fresh(buffer) && buffer.Length == PAGE_SIZE && buffer[..KEY_MANIFEST_SIZE] == image
      ensures k % 2 == 1 ==> buffer[KEY_MANIFEST_SIZE..] == flash[PageOf(k)..PageOf(k) + KEY_MANIFEST_SIZE]
    {
      buffer := new byte[PAGE_SIZE](_ => 0);
      CopyInto(buffer, 0, image);
      ghost var first := buffer[..];
      if k % 2 == 1 {
        CopyInto(buffer, KEY_MANIFEST_SIZE, flash[PageOf(k)..PageOf(k) + KEY_MANIFEST_SIZE]);
      }
      assert buffer[..KEY_MANIFEST_SIZE] == buffer[..][..KEY_MANIFEST_SIZE] == first[..KEY_MANIFEST_SIZE];
    }

    /** `cerberus_append_key_manifest`. */
    method AppendKeyManifest(image: seq<byte>, io: AppendIo) returns (ok: bool)
      requires Valid() && |image| == KEY_MANIFEST_SIZE && AppendIoOk(io)
      modifies flash
      ensures (Contents(), ok) == Append(old(Contents()), image, io)
    {
      if !io.sourceOk || !AcceptsImage(image) {
        return false;
      }
      var slot := FindAppendSlot(io.readable);
      if slot.None? {
        return false;
      }
      var k := slot.value;
      if k % 2 == 1 && !io.readPageOk {
        return false;
      }
      SlotInPage(Contents(), k);
      if !io.eraseOk || (k % 2 == 1 && !io.rewriteOk) || !io.writeOk {
        Break(PageOf(k), io.broken);
        return false;
      }
      var buffer := FillPageBuffer(image, k);
      var length := AppendLength(image);
      assert buffer[..length] == image[..length];
      RewriteSlot(k, buffer, length);
      ok := true;
    }

    /** `cerberus_pfr_find_key_manifest_id_and_key_id`. */
    method FindKey(csk: Digests, readable: nat -> bool) returns (found: Option<(nat, nat)>)
      requires Valid()
      ensures found == Find(Contents(), csk, readable)
    {
      ghost var rs := SlotResults(Contents(), csk, readable);
      var k := 0;
      while k < KEY_MANIFEST_MAX_COUNT && k * KEY_MANIFEST_SIZE < flash.Length
        invariant k <= SlotCount(Contents())
        invariant FirstFound(rs, k) == FirstFound(rs, 0)
      {
        SlotCovered(Contents(), k);
        var id := FindKeyInSlot(csk, readable, k);
        assert id == rs[k];
        if id.Some? {
          return Some((k, id.value));
        }
        k := k + 1;
      }
      return None;
    }

    /** The scan of one slot. */
    method FindKeyInSlot(csk: Digests, readable: nat -> bool, k: nat) returns (found: Option<nat>)
      requires Valid() && k < SlotCount(Contents())
      ensures found == FindInSlot(Contents(), csk, readable, k)
    {
      if !readable(k) {
        return None;
      }
      SlotManifestOk(Contents(), k);
      var m := SlotManifest(flash[..], k);
      if m.None? || HashLength(m.value.hashType) == 0 {
        return None;
      }
      found := FindKeyInManifest(m.value, csk);
    }
  }

  /** The scan of one manifest's keys. */
  method FindKeyInManifest(m: KeyManifest, csk: Digests) returns (found: Option<nat>)
    requires ManifestOk(m) && HashLength(m.hashType) > 0
    ensures found == FindKeyId(m, csk, 0)
  {
    var id := 0;
    while id <= MAX_KEY_ID && id < m.keyCount
      invariant id <= MAX_KEY_ID + 1
      invariant FindKeyId(m, csk, id) == FindKeyId(m, csk, 0)
    {
      if KeyAt(m, csk, id) {
        return Some(id);
      }
      id := id + 1;
    }
    return None;
  }

  lemma SlotCovered(f: Partition, k: nat)
    requires k < KEY_MANIFEST_MAX_COUNT && k * KEY_MANIFEST_SIZE < |f|
    ensures k < SlotCount(f)
  {
    assert |f| == |f| / PAGE_SIZE * PAGE_SIZE;
    assert |f| / KEY_MANIFEST_SIZE == |f| / PAGE_SIZE * 2;
  }
}
