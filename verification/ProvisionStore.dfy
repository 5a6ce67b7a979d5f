/** The provisioning flash as one object, with the program's loops over it. */
module ProvisionStore {
  import opened Bits
  import opened Bytes
  import opened ProvisionUfm
  import opened Svn
  import opened KeyCancellation

  class ProvisionFlash {
    const data: array<byte>

    ghost predicate Valid()
      reads this
    {
      data.Length == PROVISION_UFM_SIZE
    }

    ghost function Contents(): Ufm
      requires Valid()
      reads this, data
    {
      data[..]
    }

    constructor ()
      ensures Valid() && fresh(data) && Contents() == Erased(PROVISION_UFM_SIZE)
    {
      data := new byte[PROVISION_UFM_SIZE](_ => 0xFF);
      new;
      assert data[..] == Erased(PROVISION_UFM_SIZE);
    }

    /** `set_provision_data_in_flash`. */
    method Write(at: nat, bytes: seq<byte>, io: Io) returns (ok: bool)
      requires Valid()
      modifies data
      ensures (Contents(), ok) == UfmWrite(old(Contents()), at, bytes, io)
    {
      ok := false;
      if at + |bytes| > PROVISION_UFM_SIZE || !io.readOk || !io.eraseOk {
        return;
      }
      var buffer := data[..];
      forall i | 0 <= i < data.Length {
        data[i] := 0xFF;
      }
      assert data[..] == Erased(PROVISION_UFM_SIZE);
      if io.writeOk {
        CopyInto(data, 0, Splice(buffer, at, bytes));
        assert Splice(Erased(PROVISION_UFM_SIZE), 0, Splice(buffer, at, bytes)) == Splice(buffer, at, bytes);
      }
      ok := true;
    }

    /** `get_ufm_svn`. */
    method ReadSvn(p: Policy) returns (index: nat)
      requires Valid()
      ensures index == GetSvn(Contents(), p)
    {
      var at := Offset(p);
      var low, high := FromLittleEndian(data[at..at + 4]), FromLittleEndian(data[at + 4..at + 8]);
      ghost var u := Contents();
      assert low == Word(u, at, 0) && high == Word(u, at, 1);
      index := 0;
      while index < 64
        invariant index <= 64
        invariant FirstSet(u, at, index) == GetSvn(u, p)
      {
        var bit := if index < 32 then TestBit(low, index) else TestBit(high, index - 32);
        assert bit == PolicyBit(u, at, index) by {
          assert index / 32 == (if index < 32 then 0 else 1) && index % 32 == if index < 32 then index else index - 32;
        }
        if bit {
          return;
        }
        index := index + 1;
      }
    }

    /** `set_ufm_svn`. */
    method StoreSvn(p: Policy, svn: nat, io: Io) returns (ok: bool)
      requires Valid()
      modifies data
      ensures (Contents(), ok) == SetSvn(old(Contents()), p, svn, io)
    {
      if svn > SVN_MAX {
        return false;
      }
      var current := ReadSvn(p);
      if current == svn {
        return true;
      }
      var low, high := HighWord(0), HighWord(0);
      if svn < 32 {
        low := HighWord(svn % 32);
      } else {
        low := 0;
        high := if svn < 64 then HighWord(svn % 32) else 0;
      }
      assert (low, high) == SvnWords(svn);
      ok := Write(Offset(p), LittleEndian(low, 4) + LittleEndian(high, 4), io);
    }

    /** `cancel_csk_key_id`. */
    method CancelKey(pcType: nat, slot: nat, id: nat, readOk: bool, io: Io) returns (ok: bool)
      requires Valid()
      modifies data
      ensures (Contents(), ok) == CancelCskKeyId(old(Contents()), pcType, slot, id, readOk, io)
    {
      var offset := PolicyOffset(pcType);
      if offset == 0 || slot > MAX_KEY_MANIFEST_ID || id > MAX_KEY_ID || !readOk {
        return false;
      }
      ok := Write(offset + slot, [ClearBit(data[offset + slot], id)], io);
    }

    /** One slot of `cerberus_pfr_cancel_csk_keys`: the listed keys not yet cancelled. */
    method CancelSlotKeys(kc: KcManifest, slots: Slots, k: nat, ios: Ios, remaining: array<bool>)
      requires Valid() && KcManifestOk(kc) && remaining.Length == |kc.keys| && k < |slots|
      modifies data, remaining
      ensures Cancelling(Contents(), remaining[..]) ==
                CancelInSlot(old(Cancelling(Contents(), remaining[..])), slots, k, kc, 0, ios)
    {
      var i := 0;
      while i < |kc.keys|
        invariant i <= |kc.keys|
        invariant CancelInSlot(Cancelling(Contents(), remaining[..]), slots, k, kc, i, ios) ==
                    CancelInSlot(old(Cancelling(Contents(), remaining[..])), slots, k, kc, 0, ios)
      {
        ghost var before := Cancelling(Contents(), remaining[..]);
        if remaining[i] && Matches(slots, k, kc, i) {
          var ok := CancelKey(kc.policy, k, kc.keys[i].id, ios(k, i).readOk, ios(k, i).io);
          if ok {
            remaining[i] := false;
          }
        }
        assert Cancelling(Contents(), remaining[..]) == CancelOne(before, slots, k, kc, i, ios);
        i := i + 1;
      }
    }

    /** `cerberus_pfr_cancel_csk_keys` once the cancellation manifest is read. */
    method CancelListedKeys(pcType: nat, kc: KcManifest, slots: Slots, ios: Ios) returns (ok: bool)
      requires Valid() && KcManifestOk(kc)
      modifies data
      ensures (Contents(), ok) == CancelCskKeys(old(Contents()), pcType, kc, slots, ios)
    {
      if !PolicyAllowed(pcType, kc.policy) {
        return false;
      }
      var remaining := new bool[|kc.keys|](_ => true);
      ghost var start := CancelStart(Contents(), kc);
      assert Cancelling(Contents(), remaining[..]) == start && start.remaining[0];
      var k, left := 0, true;
      while k < |slots| && left
        invariant k <= |slots| && fresh(remaining) && left == !AllDone(remaining[..])
        invariant CancelInSlots(Cancelling(Contents(), remaining[..]), slots, k, kc, ios) ==
                    CancelInSlots(start, slots, 0, kc, ios)
      {
        CancelSlotKeys(kc, slots, k, ios, remaining);
        k := k + 1;
        left := exists i :: 0 <= i < remaining.Length && remaining[i];
      }
      ok := !left;
    }
  }
}
