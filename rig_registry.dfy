/**
 * The rig registry of the command-line tool (app_cli.py): `add-rig` appends
 * a rig to the configuration's `rigs` list unless a rig with the same ID or
 * the same (upper-cased) Mikrotik MAC is already there.
 */
module RigRegistry {
  import opened Strings

  /** One entry of `config['rigs']`. */
  datatype Rig = Rig(rigId: string, mikrotikMac: string, sps855Ip: string)

  /** How `add_rig` ends. */
  datatype AddOutcome = Added | DuplicateId | DuplicateMac

  /**
   * The verdict of the duplicate scan: the first rig that clashes decides,
   * and a rig with both the ID and the MAC reports the ID.
   */
  function Scan(rigs: seq<Rig>, id: string, mac: string): AddOutcome
    decreases |rigs|
  {
    if |rigs| == 0 then Added
    else if rigs[0].rigId == id then DuplicateId
    else if rigs[0].mikrotikMac == mac then DuplicateMac
    else Scan(rigs[1..], id, mac)
  }

  /** A rig clashes with the new one when it has its ID or its MAC. */
  predicate Clashes(r: Rig, id: string, mac: string)
  {
    r.rigId == id || r.mikrotikMac == mac
  }

  /** No rig before index `k` clashes with the new ID or MAC. */
  predicate ClearBefore(rigs: seq<Rig>, id: string, mac: string, k: nat)
    requires k <= |rigs|
  {
    forall j :: 0 <= j < k ==> !Clashes(rigs[j], id, mac)
  }

  lemma ClearShift(rigs: seq<Rig>, id: string, mac: string, k: nat)
    requires 0 < k <= |rigs|
    ensures ClearBefore(rigs, id, mac, k) <==> !Clashes(rigs[0], id, mac) && ClearBefore(rigs[1..], id, mac, k - 1)
  {
    assert forall j :: 0 <= j < k - 1 ==> rigs[1..][j] == rigs[j + 1];
    if !Clashes(rigs[0], id, mac) && ClearBefore(rigs[1..], id, mac, k - 1) {
      forall j | 0 < j < k ensures !Clashes(rigs[j], id, mac) {
        assert rigs[j] == rigs[1..][j - 1];
      }
    }
  }

  /**
   * The scan admits the rig exactly when no rig has its ID or its MAC;
   * otherwise the first clashing rig decides: a duplicate ID when that rig
   * has the ID (whether or not it also has the MAC), a duplicate MAC when it
   * has only the MAC.
   */
  lemma {:induction false} ScanSpec(rigs: seq<Rig>, id: string, mac: string)
    ensures Scan(rigs, id, mac) == Added <==> ClearBefore(rigs, id, mac, |rigs|)
    ensures forall k :: 0 <= k < |rigs| && ClearBefore(rigs, id, mac, k) && Clashes(rigs[k], id, mac) ==>
      Scan(rigs, id, mac) == if rigs[k].rigId == id then DuplicateId else DuplicateMac
    decreases |rigs|
  {
    if |rigs| > 0 {
      var rest := rigs[1..];
      if Clashes(rigs[0], id, mac) {
        forall k | 0 < k < |rigs| ensures !ClearBefore(rigs, id, mac, k) {
        }
      } else {
        ScanSpec(rest, id, mac);
        ClearShift(rigs, id, mac, |rigs|);
        forall k | 0 <= k < |rigs| && ClearBefore(rigs, id, mac, k) && Clashes(rigs[k], id, mac)
          ensures Scan(rigs, id, mac) == if rigs[k].rigId == id then DuplicateId else DuplicateMac
        {
          assert k > 0;
          ClearShift(rigs, id, mac, k);
          assert rest[k - 1] == rigs[k];
        }
      }
    }
  }

  /** IDs and MACs are each pairwise distinct. */
  predicate Unique(rigs: seq<Rig>)
  {
    forall a, b :: 0 <= a < b < |rigs| ==> rigs[a].rigId != rigs[b].rigId && rigs[a].mikrotikMac != rigs[b].mikrotikMac
  }

  /** A rig the scan admits keeps the list free of duplicate IDs and MACs. */
  lemma AddPreservesUnique(rigs: seq<Rig>, r: Rig)
    requires Unique(rigs) && Scan(rigs, r.rigId, r.mikrotikMac) == Added
    ensures Unique(rigs + [r])
  {
    ScanSpec(rigs, r.rigId, r.mikrotikMac);
  }

  /** The configuration file: its list of rigs and how many times it was written. */
  class Config {
    var rigs: seq<Rig>
    var saves: nat

    constructor(initial: seq<Rig>)
      ensures rigs == initial && saves == 0
    {
      rigs := initial;
      saves := 0;
    }

    /**
     * `add_rig(args)`: on a duplicate ID or MAC nothing changes and nothing
     * is saved; otherwise the new rig, with its MAC upper-cased, is appended
     * after the existing ones and the configuration is saved once.
     */
    method AddRig(id: string, mac: string, ip: string) returns (outcome: AddOutcome)
      modifies this
      ensures outcome == Scan(old(rigs), id, Upper(mac))
      ensures outcome == Added ==> rigs == old(rigs) + [Rig(id, Upper(mac), ip)] && saves == old(saves) + 1
      ensures outcome != Added ==> rigs == old(rigs) && saves == old(saves)
    {
      var newRig := Rig(id, Upper(mac), ip);
      var i := 0;
      while i < |rigs|
        invariant 0 <= i <= |rigs|
        invariant Scan(rigs, id, Upper(mac)) == Scan(rigs[i..], id, Upper(mac))
      {
        var rig := rigs[i];
        assert rigs[i..][1..] == rigs[i + 1..];
        if rig.rigId == id {
          return DuplicateId;
        }
        if rig.mikrotikMac == Upper(mac) {
          return DuplicateMac;
        }
        i := i + 1;
      }
      rigs := rigs + [newRig];
      saves := saves + 1;
      return Added;
    }
  }

  /** An ID that differs only in letter case is a different rig. */
  lemma IdsAreCaseSensitive()
    ensures Scan([Rig("Rig_01", "AA:BB", "10.0.0.1")], "rig_01", "CC:DD") == Added
  {
    var rigs := [Rig("Rig_01", "AA:BB", "10.0.0.1")];
    assert "Rig_01" != "rig_01" by { assert "Rig_01"[0] != "rig_01"[0]; }
    assert "AA:BB" != "CC:DD" by { assert "AA:BB"[0] != "CC:DD"[0]; }
    assert rigs[1..] == [];
  }

  /** Upper-casing a MAC twice changes nothing more. */
  lemma UpperIdempotent(s: string)
    ensures Upper(Upper(s)) == Upper(s)
  {
  }

  /** A text with a lower-case ASCII letter. */
  predicate HasLower(s: string)
  {
    exists k :: 0 <= k < |s| && 'a' <= s[k] <= 'z'
  }

  /**
   * The incoming MAC is upper-cased before the comparison and the stored
   * ones are compared as they are: a MAC that matches a stored entry after
   * upper-casing is refused whatever its letter case, while an entry stored
   * with a lower-case letter is never matched.
   */
  lemma MacComparison(rigs: seq<Rig>, id: string, mac: string)
    ensures (exists k :: 0 <= k < |rigs| && rigs[k].mikrotikMac == Upper(mac)) ==> Scan(rigs, id, Upper(mac)) != Added
    ensures ClearBefore(rigs, id, Upper(mac), |rigs|) ==> Scan(rigs, id, Upper(mac)) == Added
    ensures forall k :: 0 <= k < |rigs| && HasLower(rigs[k].mikrotikMac) ==> rigs[k].mikrotikMac != Upper(mac)
  {
    ScanSpec(rigs, id, Upper(mac));
    forall k | 0 <= k < |rigs| && HasLower(rigs[k].mikrotikMac) ensures rigs[k].mikrotikMac != Upper(mac) {
      var m := rigs[k].mikrotikMac;
      var c :| 0 <= c < |m| && 'a' <= m[c] <= 'z';
    }
  }
}
