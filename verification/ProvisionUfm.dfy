/** The provisioning flash (set_provision_data_in_flash), and the security version
    numbers kept in it (cerberus_pfr_svn.c). */
module ProvisionUfm {
  import opened Bytes

  const PROVISION_UFM_SIZE := 512

  function Erased(n: nat): (s: seq<byte>)
    ensures |s| == n && forall i :: 0 <= i < n ==> s[i] == 0xFF
  {
    seq(n, _ => 0xFF)
  }

  type Ufm = u: seq<byte> | |u| == PROVISION_UFM_SIZE witness seq(PROVISION_UFM_SIZE, _ => 0xFF)

  /** Which of the flash operations of one write succeed. */
  datatype Io = Io(readOk: bool, eraseOk: bool, writeOk: bool)

  /** The contents after a write and the status it reports: read everything, erase, write
      everything back. The status of the last step is not looked at. */
  function UfmWrite(u: Ufm, at: nat, data: seq<byte>, io: Io): (Ufm, bool) {
    if at + |data| > PROVISION_UFM_SIZE || !io.readOk || !io.eraseOk then (u, false)
    else (if io.writeOk then Splice(u, at, data) else Erased(PROVISION_UFM_SIZE), true)
  }
}

module Svn {
  import opened Bits
  import opened Bytes
  import opened ProvisionUfm

  const SVN_MAX := 64
  const SVN_POLICY_FOR_CPLD_UPDATE := 0x0d4
  const SVN_POLICY_FOR_PCH_FW_UPDATE := 0x0dc
  const SVN_POLICY_FOR_BMC_FW_UPDATE := 0x0e4

  datatype Policy = Cpld | Pch | Bmc

  function Offset(p: Policy): nat {
    match p
    case Cpld => SVN_POLICY_FOR_CPLD_UPDATE
    case Pch => SVN_POLICY_FOR_PCH_FW_UPDATE
    case Bmc => SVN_POLICY_FOR_BMC_FW_UPDATE
  }

  /** One of the two 32-bit words of a policy. */
  function Word(u: Ufm, at: nat, word: nat): nat
    requires at + 8 <= PROVISION_UFM_SIZE && word < 2
  {
    FromLittleEndian(u[at + 4 * word..at + 4 * word + 4])
  }

  predicate PolicyBit(u: Ufm, at: nat, i: nat)
    requires at + 8 <= PROVISION_UFM_SIZE && i < 64
  {
    TestBit(Word(u, at, i / 32), i % 32)
  }

  /** `get_ufm_svn`: the first set bit, 64 if there is none. */
  function FirstSet(u: Ufm, at: nat, i: nat): (n: nat)
    requires at + 8 <= PROVISION_UFM_SIZE && i <= 64
    ensures i <= n <= 64 && (forall j :: i <= j < n ==> !PolicyBit(u, at, j)) && (n < 64 ==> PolicyBit(u, at, n))
    decreases 64 - i
  {
    if i == 64 || PolicyBit(u, at, i) then i else FirstSet(u, at, i + 1)
  }

  function GetSvn(u: Ufm, p: Policy): (n: nat)
    ensures n <= SVN_MAX
  {
    FirstSet(u, Offset(p), 0)
  }

  /** The words `set_ufm_svn` writes: `~((1 << svn % 32) - 1)` in the word that holds bit
      `svn`, ones above it, zeros below. */
  function SvnWords(svn: nat): (nat, nat)
    requires svn <= SVN_MAX
  {
    if svn < 32 then (HighWord(svn % 32), HighWord(0)) else if svn < 64 then (0, HighWord(svn % 32)) else (0, 0)
  }

  /** `~((1 << k) - 1)` in 32 bits. */
  function HighWord(k: nat): nat
    requires k <= 32
  {
    Pow2Grows(k, 32);
    Pow2(32) - Pow2(k)
  }

  function SvnBytes(svn: nat): (s: seq<byte>)
    requires svn <= SVN_MAX
    ensures |s| == 8
  {
    LittleEndian(SvnWords(svn).0, 4) + LittleEndian(SvnWords(svn).1, 4)
  }

  /** `set_ufm_svn`. It can lower a number: its callers gate it. */
  function SetSvn(u: Ufm, p: Policy, svn: nat, io: Io): (Ufm, bool) {
    if svn > SVN_MAX then (u, false)
    else if GetSvn(u, p) == svn then (u, true)
    else UfmWrite(u, Offset(p), SvnBytes(svn), io)
  }

  lemma PolicyBitIs(u: Ufm, at: nat, i: nat)
    requires at + 8 <= PROVISION_UFM_SIZE && i < 64
    ensures PolicyBit(u, at, i) <==> TestBit(u[at + i / 8], i % 8)
  {
    var (w, k) := (i / 32, i % 32);
    LittleEndianBit(u[at + 4 * w..at + 4 * w + 4], k);
    assert i / 8 == 4 * w + k / 8 && i % 8 == k % 8;
  }

  /** The number is that of the lowest set bit in the eight bytes of the policy, from 0xD4,
      0xDC or 0xE4 on: byte by byte, the low bits first; 64 when no bit is set. */
  lemma NumberIsLowestBit(u: Ufm, p: Policy)
    ensures var n := GetSvn(u, p); var at := if p.Cpld? then 0xD4 else if p.Pch? then 0xDC else 0xE4;
            && n <= 64 && (n < 64 ==> TestBit(u[at + n / 8], n % 8))
            && forall i :: 0 <= i < n ==> !TestBit(u[at + i / 8], i % 8)
  {
    var n, at := GetSvn(u, p), Offset(p);
    if n < 64 {
      PolicyBitIs(u, at, n);
    }
    forall i | 0 <= i < n ensures !TestBit(u[at + i / 8], i % 8) {
      assert !PolicyBit(u, at, i);
      PolicyBitIs(u, at, i);
    }
  }

  predicate SvnPolicyVerify(u: Ufm, p: Policy, svn: nat) {
    svn <= SVN_MAX && svn >= GetSvn(u, p)
  }

  /** A policy as `set_ufm_svn` leaves it: the bits from the number on, and no others. */
  predicate Canonical(u: Ufm, p: Policy, svn: nat) {
    forall i :: 0 <= i < 64 ==> (PolicyBit(u, Offset(p), i) <==> i >= svn)
  }

  lemma WordBits(svn: nat, i: nat)
    requires svn <= SVN_MAX && i < 64
    ensures TestBit(if i < 32 then SvnWords(svn).0 else SvnWords(svn).1, i % 32) <==> i >= svn
  {
    var j, k := i % 32, svn % 32;
    HighWordBit(0, j);
    HighWordBit(k, j);
    ZeroBits(j);
    if svn < 32 {
      assert k == svn && (i < 32 ==> j == i);
    } else if svn < 64 {
      assert k == svn - 32 && (i >= 32 ==> j == i - 32);
    }
  }

  lemma HighWordBit(k: nat, j: nat)
    requires k < 32 && j < 32
    ensures TestBit(HighWord(k), j) <==> j >= k
  {
    HighBits(32, k, j);
  }

  lemma WordsOfSvnBytes(svn: nat)
    requires svn <= SVN_MAX
    ensures SvnWords(svn).0 < Pow256(4) && SvnWords(svn).1 < Pow256(4)
    ensures FromLittleEndian(SvnBytes(svn)[..4]) == SvnWords(svn).0
    ensures FromLittleEndian(SvnBytes(svn)[4..]) == SvnWords(svn).1
  {
    Pow2Grows(0, svn % 32);
    Pow32();
    LittleEndianRoundTrip(SvnWords(svn).0, 4);
    LittleEndianRoundTrip(SvnWords(svn).1, 4);
  }

  lemma Pow32()
    ensures Pow256(4) == Pow2(32) == 0x1_0000_0000
  {
    assert Pow256(2) == 0x1_0000;
    assert Pow2(8) == 256;
    assert Pow2(16) == 0x1_0000;
    assert Pow2(24) == 0x100_0000;
  }

  lemma WrittenBits(u: Ufm, p: Policy, svn: nat)
    requires svn <= SVN_MAX
    ensures Canonical(Splice(u, Offset(p), SvnBytes(svn)), p, svn)
  {
    var at, s := Offset(p), SvnBytes(svn);
    var u' := Splice(u, at, s);
    WordsOfSvnBytes(svn);
    assert u'[at..at + 4] == u'[at..at + 8][..4] == s[..4];
    assert u'[at + 4..at + 8] == u'[at..at + 8][4..] == s[4..];
    assert Word(u', at, 0) == SvnWords(svn).0 && Word(u', at, 1) == SvnWords(svn).1;
    forall i | 0 <= i < 64 ensures PolicyBit(u', at, i) <==> i >= svn {
      WordBits(svn, i);
      assert i / 32 == if i < 32 then 0 else 1;
    }
  }

  lemma CanonicalIsSvn(u: Ufm, p: Policy, svn: nat)
    requires svn <= SVN_MAX && Canonical(u, p, svn)
    ensures GetSvn(u, p) == svn
  {
    var n := GetSvn(u, p);
    assert n < 64 ==> PolicyBit(u, Offset(p), n);
    assert svn < 64 ==> PolicyBit(u, Offset(p), svn);
  }

  /** Reading back gives the number that was set, whenever the write is stored. */
  lemma GetAfterSet(u: Ufm, p: Policy, svn: nat, io: Io)
    requires SetSvn(u, p, svn, io).1 && io.writeOk
    ensures GetSvn(SetSvn(u, p, svn, io).0, p) == svn
  {
    if GetSvn(u, p) != svn {
      WrittenBits(u, p, svn);
      CanonicalIsSvn(SetSvn(u, p, svn, io).0, p, svn);
    }
  }

  /** Raising a number only clears bits. */
  lemma RaisingOnlyClears(u: Ufm, p: Policy, before: nat, svn: nat, io: Io, i: nat)
    requires Canonical(u, p, before) && before <= svn <= SVN_MAX && io.writeOk && i < 64
    ensures PolicyBit(SetSvn(u, p, svn, io).0, Offset(p), i) ==> PolicyBit(u, Offset(p), i)
  {
    WrittenBits(u, p, svn);
  }

  lemma OtherPolicyUntouched(u: Ufm, p: Policy, svn: nat, io: Io, q: Policy)
    requires p != q && io.writeOk
    ensures GetSvn(SetSvn(u, p, svn, io).0, q) == GetSvn(u, q)
  {
    var u' := SetSvn(u, p, svn, io).0;
    if GetSvn(u, p) != svn && svn <= SVN_MAX {
      SpliceElsewhere(u, Offset(p), SvnBytes(svn), Offset(q), 8);
    }
    SamePolicy(u, u', q);
  }

  lemma SameWord(u: Ufm, u': Ufm, at: nat, word: nat)
    requires at + 8 <= PROVISION_UFM_SIZE && word < 2 && u'[at..at + 8] == u[at..at + 8]
    ensures Word(u', at, word) == Word(u, at, word)
  {
    var k := 4 * word;
    SubSlice(u', at, 8, k, 4);
    SubSlice(u, at, 8, k, 4);
  }

  lemma SamePolicy(u: Ufm, u': Ufm, p: Policy)
    requires u'[Offset(p)..Offset(p) + 8] == u[Offset(p)..Offset(p) + 8]
    ensures GetSvn(u', p) == GetSvn(u, p)
  {
    var at := Offset(p);
    SameWord(u, u', at, 0);
    SameWord(u, u', at, 1);
    forall i | 0 <= i < 64 ensures PolicyBit(u', at, i) <==> PolicyBit(u, at, i) {
      assert i / 32 == 0 || i / 32 == 1;
    }
    var m, n := GetSvn(u, p), GetSvn(u', p);
    assert m < 64 ==> PolicyBit(u, at, m);
    assert n < 64 ==> PolicyBit(u', at, n);
  }

  // ----- the gates

  /** `Update`: an image whose other checks passed; only the recovery image's update
      stores its number. `Recovered`: the recovery image's version is read at boot. */
  datatype SvnEvent =
    | Update(policy: Policy, recovery: bool, svn: nat, io: Io)
    | Recovered(policy: Policy, svn: nat, io: Io)

  function SvnStep(u: Ufm, e: SvnEvent): Ufm {
    match e
    case Update(p, recovery, svn, io) =>
      if SvnPolicyVerify(u, p, svn) && recovery then SetSvn(u, p, svn, io).0 else u
    case Recovered(p, svn, io) =>
      if svn > GetSvn(u, p) then SetSvn(u, p, svn, io).0 else u
  }

  /** A step never lowers a stored number when its write is stored; otherwise it leaves
      the flash as it was or, the lost write, all numbers zero. */
  lemma StepNeverLowers(u: Ufm, e: SvnEvent, p: Policy)
    ensures e.io.writeOk ==> GetSvn(SvnStep(u, e), p) >= GetSvn(u, p)
    ensures !e.io.writeOk ==> SvnStep(u, e) == u || GetSvn(SvnStep(u, e), p) == 0
  {
    if e.io.writeOk {
      if p != e.policy { OtherPolicyUntouched(u, e.policy, e.svn, e.io, p); }
      else if SetSvn(u, p, e.svn, e.io).1 { GetAfterSet(u, p, e.svn, e.io); }
    } else {
      ErasedIsZero(p);
    }
  }

  /** The number after a step whose write, if there is one, is stored: an accepted update of
      the recovery image leaves its version, a recovery check the larger of the two numbers;
      every other update, a version above 64, another policy's step and a failed read or
      erase leave the number. */
  lemma StepNumber(u: Ufm, e: SvnEvent, p: Policy)
    requires e.io.writeOk
    ensures var before, after := GetSvn(u, p), GetSvn(SvnStep(u, e), p);
            if e.policy != p || e.svn > 64 || !e.io.readOk || !e.io.eraseOk then after == before
            else match e
              case Update(_, recovery, svn, _) => after == if recovery && svn >= before then svn else before
              case Recovered(_, svn, _) => after == if svn >= before then svn else before
  {
    if e.policy != p {
      OtherPolicyUntouched(u, e.policy, e.svn, e.io, p);
    } else if SetSvn(u, p, e.svn, e.io).1 {
      GetAfterSet(u, p, e.svn, e.io);
    }
  }

  lemma ErasedIsZero(p: Policy)
    ensures GetSvn(Erased(PROVISION_UFM_SIZE), p) == 0
  {
    var u: Ufm := Erased(PROVISION_UFM_SIZE);
    PolicyBitIs(u, Offset(p), 0);
    assert PolicyBit(u, Offset(p), 0);
  }
}
