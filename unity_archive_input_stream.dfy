/**
 * A cursor over the archive that yields, in archive order, the assets whose payload
 * entry it passes, and skips every other entry (directories, `asset.meta`, `pathname`
 * and `preview.png` members, payloads of assets it was not asked for).
 *
 * The tar stream is the entry sequence `entries` and the stream position an index
 * into it.
 */
module UnityArchiveInputStream {
  import opened Wrappers
  import opened TarArchive
  import opened UnityAsset

  /** Asset `i` is registered under tar path `p`. */
  predicate RegistersAt(assets: seq<UnityAsset>, i: int, p: string) {
    0 <= i < |assets| && !assets[i].IsProbablyDirectory() && assets[i].TarPathOfAssetFile() == Some(p)
  }

  /** No later asset is registered under the same path. */
  predicate LastRegisteredAt(assets: seq<UnityAsset>, i: int, p: string) {
    RegistersAt(assets, i, p) && forall j :: i < j < |assets| ==> !RegistersAt(assets, j, p)
  }

  /**
   * The map the constructor fills: every asset that is not directory-like, under the
   * raw tar path of its payload, a later asset replacing an earlier one.
   */
  function Registration(assets: seq<UnityAsset>): map<string, UnityAsset>
    decreases |assets|
  {
    if assets == [] then map[]
    else
      var m := Registration(assets[..|assets| - 1]);
      var a := assets[|assets| - 1];
      if a.IsProbablyDirectory() then m else m[a.TarPathOfAssetFile().value := a]
  }

  /** Every registered asset has a payload, and its tar path is its key. */
  predicate RegistrationValid(m: map<string, UnityAsset>) {
    forall p :: p in m ==> !m[p].IsProbablyDirectory() && m[p].TarPathOfAssetFile() == Some(p)
  }

  lemma {:induction false} RegistrationCharacterized(assets: seq<UnityAsset>)
    ensures RegistrationValid(Registration(assets))
    ensures forall p :: p in Registration(assets) <==> exists i :: RegistersAt(assets, i, p)
    ensures forall p :: p in Registration(assets) ==>
      exists i :: LastRegisteredAt(assets, i, p) && Registration(assets)[p] == assets[i]
    decreases |assets|
  {
    if assets != [] {
      var n := |assets| - 1;
      var pre := assets[..n];
      RegistrationCharacterized(pre);
      assert forall i :: 0 <= i < n ==> pre[i] == assets[i];
      var m := Registration(assets);
      forall p ensures p in m <==> exists i :: RegistersAt(assets, i, p) {
        if exists i :: RegistersAt(assets, i, p) {
          var i :| RegistersAt(assets, i, p);
          if i < n {
            assert RegistersAt(pre, i, p);
          }
        }
        if p in Registration(pre) {
          var i :| RegistersAt(pre, i, p);
          assert RegistersAt(assets, i, p);
        }
        if p in m && p !in Registration(pre) {
          assert RegistersAt(assets, n, p);
        }
      }
      forall p | p in m ensures exists i :: LastRegisteredAt(assets, i, p) && m[p] == assets[i] {
        if RegistersAt(assets, n, p) {
          assert LastRegisteredAt(assets, n, p);
        } else {
          assert p in Registration(pre) && m[p] == Registration(pre)[p];
          var i :| LastRegisteredAt(pre, i, p) && Registration(pre)[p] == pre[i];
          forall j | i < j < |assets| ensures !RegistersAt(assets, j, p) {
            if j < n {
              assert !RegistersAt(pre, j, p);
            }
          }
          assert LastRegisteredAt(assets, i, p);
        }
      }
    }
  }

  /**
   * The effect of one `getNextEntry()` from position `pos`: the position after the
   * first entry at or after `pos` whose name is registered, with that entry's asset,
   * or the end of the archive and no asset.
   */
  function Seek(entries: seq<Entry>, pos: nat, reg: map<string, UnityAsset>): (r: (nat, Option<UnityAsset>))
    requires pos <= |entries|
    ensures pos <= r.0 <= |entries|
    ensures r.1.None? ==> r.0 == |entries|
    ensures r.1.None? <==> forall k :: pos <= k < |entries| ==> entries[k].name !in reg
    ensures r.1.Some? ==> pos < r.0 && entries[r.0 - 1].name in reg && r.1.value == reg[entries[r.0 - 1].name]
    ensures r.1.Some? ==> forall k :: pos <= k < r.0 - 1 ==> entries[k].name !in reg
    decreases |entries| - pos
  {
    if pos == |entries| then (pos, None)
    else if entries[pos].name in reg then (pos + 1, Some(reg[entries[pos].name]))
    else Seek(entries, pos + 1, reg)
  }

  /** Everything the remaining calls return, in order, until the first null. */
  function Drain(entries: seq<Entry>, pos: nat, reg: map<string, UnityAsset>): seq<UnityAsset>
    requires pos <= |entries|
    decreases |entries| - pos
  {
    var (next, r) := Seek(entries, pos, reg);
    if r.None? then [] else [r.value] + Drain(entries, next, reg)
  }

  /** The registered assets of the entries, one per entry whose name is registered. */
  function Registered(entries: seq<Entry>, reg: map<string, UnityAsset>): seq<UnityAsset> {
    if entries == [] then []
    else (if entries[0].name in reg then [reg[entries[0].name]] else []) + Registered(entries[1..], reg)
  }

  lemma {:induction false} RegisteredSkip(entries: seq<Entry>, pos: nat, k: nat, reg: map<string, UnityAsset>)
    requires pos <= k <= |entries|
    requires forall j :: pos <= j < k ==> entries[j].name !in reg
    ensures Registered(entries[pos..], reg) == Registered(entries[k..], reg)
    decreases k - pos
  {
    if pos < k {
      assert entries[pos..][1..] == entries[pos + 1..];
      RegisteredSkip(entries, pos + 1, k, reg);
    }
  }

  /**
   * Successive calls return the registered assets in archive order, one per entry
   * whose name is registered, each entry at most once.
   */
  lemma {:induction false} DrainIsRegistered(entries: seq<Entry>, pos: nat, reg: map<string, UnityAsset>)
    requires pos <= |entries|
    ensures Drain(entries, pos, reg) == Registered(entries[pos..], reg)
    decreases |entries| - pos
  {
    var (next, r) := Seek(entries, pos, reg);
    if r.None? {
      RegisteredSkip(entries, pos, |entries|, reg);
      assert entries[|entries|..] == [];
    } else {
      RegisteredSkip(entries, pos, next - 1, reg);
      var tail := entries[next - 1..];
      assert tail[0] == entries[next - 1] && tail[1..] == entries[next..];
      assert Registered(tail, reg) == [r.value] + Registered(entries[next..], reg);
      DrainIsRegistered(entries, next, reg);
      assert Drain(entries, pos, reg) == [r.value] + Drain(entries, next, reg);
    }
  }

  class UnityArchiveInputStream {
    const entries: seq<Entry>
    var position: nat
    var tarPathsToUnityAsset: map<string, UnityAsset>

    ghost predicate Valid()
      reads this
    {
      position <= |entries| && RegistrationValid(tarPathsToUnityAsset)
    }

    /** The assets the remaining calls of `GetNextEntry` return. */
    ghost function Pending(): seq<UnityAsset>
      reads this
      requires Valid()
    {
      Drain(entries, position, tarPathsToUnityAsset)
    }

    /** `new UnityArchiveInputStream(tarInputStream, unityAssetsToRead)`. */
    constructor (entries: seq<Entry>, unityAssetsToRead: seq<UnityAsset>)
      ensures Valid()
      ensures this.entries == entries && position == 0
      ensures tarPathsToUnityAsset == Registration(unityAssetsToRead)
    {
      this.entries := entries;
      position := 0;
      var m: map<string, UnityAsset> := map[];
      var i := 0;
      while i < |unityAssetsToRead|
        invariant 0 <= i <= |unityAssetsToRead|
        invariant m == Registration(unityAssetsToRead[..i])
      {
        var unityAsset := unityAssetsToRead[i];
        if !unityAsset.IsProbablyDirectory() {
          m := m[unityAsset.TarPathOfAssetFile().value := unityAsset];
        }
        assert unityAssetsToRead[..i + 1][..i] == unityAssetsToRead[..i];
        i := i + 1;
      }
      assert unityAssetsToRead[..i] == unityAssetsToRead;
      RegistrationCharacterized(unityAssetsToRead);
      tarPathsToUnityAsset := m;
    }

    /**
     * `getNextEntry()`: advances past the next registered payload entry and returns its
     * asset, or reaches the end and returns null.
     */
    method GetNextEntry() returns (r: Option<UnityAsset>)
      requires Valid()
      modifies this`position
      ensures Valid()
      ensures (position, r) == Seek(entries, old(position), tarPathsToUnityAsset)
      ensures r.Some? ==> !r.value.IsProbablyDirectory() && r.value.TarPathOfAssetFile() == Some(entries[position - 1].name)
      ensures old(Pending()) == if r.Some? then [r.value] + Pending() else []
    {
      while position < |entries|
        invariant old(position) <= position <= |entries|
        invariant Seek(entries, old(position), tarPathsToUnityAsset) == Seek(entries, position, tarPathsToUnityAsset)
        decreases |entries| - position
      {
        var tarEntryName := entries[position].name;
        position := position + 1;
        if tarEntryName in tarPathsToUnityAsset {
          return Some(tarPathsToUnityAsset[tarEntryName]);
        }
      }
      return None;
    }
  }
}
