/**
 The collector of node-local volume images and NFS stages whose PersistentVolume is gone
 (backend/internal/csi/gc.go): it deletes only what two sweeps in a row found orphaned.
 */
module ImageGC {
  import opened Options

  const DRIVER := "csi.giosk.io"
  const IMAGE_KIND := "이미지"
  const STAGE_KIND := "NFS 스테이지"

  /** A PersistentVolume: which driver provides it, if any, and the volume it names. */
  datatype Volume = Volume(driver: Option<string>, handle: string)

  /** What a sweep reads; a failed read is None. failing holds the keys whose deletion fails. */
  datatype Reads = Reads(
    volumes: Option<seq<Volume>>,
    images: Option<seq<string>>,
    stages: Option<seq<string>>,
    failing: set<string>)

  function Live(vs: seq<Volume>): set<string> {
    set v <- vs | v.driver == Some(DRIVER) :: v.handle
  }

  /** Suspects of both kinds share one set; the kind is the key's prefix. */
  function Keys(kind: string, ids: seq<string>): set<string> { set id <- ids :: kind + id }

  predicate Completed(r: Reads) { r.volumes.Some? && r.images.Some? && r.stages.Some? }

  /** What this sweep finds on disk without a volume. */
  function Orphans(r: Reads): set<string>
    requires Completed(r)
  {
    var live := Live(r.volumes.value);
    (set id <- r.images.value | id !in live :: IMAGE_KIND + id) +
    (set id <- r.stages.value | id !in live :: STAGE_KIND + id)
  }

  /** Deletions the sweep attempts, those it achieves, and the suspects it leaves. */
  function Attempted(suspects: set<string>, r: Reads): set<string> {
    if Completed(r) then Orphans(r) * suspects else {}
  }

  function Deleted(suspects: set<string>, r: Reads): set<string> { Attempted(suspects, r) - r.failing }

  function Suspects(suspects: set<string>, r: Reads): set<string> {
    if r.volumes.None? then {}
    else if Completed(r) then Orphans(r) - Deleted(suspects, r)
    else suspects
  }

  /** An image and a stage of the same volume never share a key: the prefixes differ at once. */
  lemma KindsDisjoint(a: string, b: string)
    ensures IMAGE_KIND + a != STAGE_KIND + b
  {
    assert (IMAGE_KIND + a)[0] != (STAGE_KIND + b)[0];
  }

  /** On the list itself: whatever a sweep suspects, it deletes nothing of a volume of this driver that is listed. */
  lemma ListedIsSpared(suspects: set<string>, r: Reads)
    ensures forall v: Volume :: r.volumes.Some? && v in r.volumes.value && v.driver == Some("csi.giosk.io") ==>
              "이미지" + v.handle !in Deleted(suspects, r) && "NFS 스테이지" + v.handle !in Deleted(suspects, r)
  {
    forall v: Volume, kind: string
      | && r.volumes.Some? && v in r.volumes.value && v.driver == Some("csi.giosk.io")
        && (kind == "이미지" || kind == "NFS 스테이지")
      ensures kind + v.handle !in Deleted(suspects, r)
    {
      assert v.handle in Live(r.volumes.value);
      if Completed(r) && kind + v.handle in Orphans(r) {
        var o :| o !in Live(r.volumes.value) &&
                 (kind + v.handle == IMAGE_KIND + o || kind + v.handle == STAGE_KIND + o);
        SameKey(kind, v.handle, o);
      }
    }
  }

  /** The id has no volume of this driver on the sweep's list. */
  ghost predicate NoVolume(r: Reads, id: string) {
    r.volumes.Some? && forall v <- r.volumes.value :: v.driver == Some("csi.giosk.io") ==> v.handle != id
  }

  /** What lies on disk without a volume in two completed sweeps is gone by the second, unless its deletion fails. */
  lemma LeftoverGoes(history: seq<Reads>, j: nat, k: nat, id: string)
    requires j < k < |history| && Completed(history[j]) && Completed(history[k])
    requires forall i :: j < i < k ==> history[i].volumes.Some? && !Completed(history[i])
    requires NoVolume(history[j], id) && NoVolume(history[k], id)
    ensures id in history[j].images.value && id in history[k].images.value && "이미지" + id !in history[k].failing ==>
              "이미지" + id in Deleted(After(history[..j]), history[j]) + Deleted(After(history[..k]), history[k])
    ensures id in history[j].stages.value && id in history[k].stages.value && "NFS 스테이지" + id !in history[k].failing ==>
              "NFS 스테이지" + id in Deleted(After(history[..j]), history[j]) + Deleted(After(history[..k]), history[k])
  {
    assert id !in Live(history[j].volumes.value) && id !in Live(history[k].volumes.value);
    if id in history[j].images.value && id in history[k].images.value && "이미지" + id !in history[k].failing {
      assert SeenBefore(history, j, k, IMAGE_KIND + id);
      GoneBySecondSweep(history, j, k, IMAGE_KIND + id);
    }
    if id in history[j].stages.value && id in history[k].stages.value && "NFS 스테이지" + id !in history[k].failing {
      assert SeenBefore(history, j, k, STAGE_KIND + id);
      GoneBySecondSweep(history, j, k, STAGE_KIND + id);
    }
  }

  class GC {
    var suspects: set<string>

    constructor ()
      ensures suspects == {}
    {
      suspects := {};
    }

    /** One pass over the ids of a kind; next collects who is suspect from here on. */
    method SweepKind(ids: seq<string>, kind: string, live: set<string>, failing: set<string>, next: set<string>)
      returns (next': set<string>, deleted: set<string>)
      ensures var orphans := set id <- ids | id !in live :: kind + id;
              && deleted == orphans * suspects - failing
              && next' == next + (orphans - deleted)
    {
      next', deleted := next, {};
      for i := 0 to |ids|
        invariant var orphans := set id <- ids[..i] | id !in live :: kind + id;
                  && deleted == orphans * suspects - failing
                  && next' == next + (orphans - deleted)
      {
        var id := ids[i];
        assert ids[..i + 1] == ids[..i] + [id];
        if id in live {
          continue;
        }
        if kind + id !in suspects {
          next' := next' + {kind + id};
          continue;
        }
        if kind + id in failing {
          next' := next' + {kind + id};
          continue;
        }
        deleted := deleted + {kind + id};
      }
      assert ids[..|ids|] == ids;
    }

    method Sweep(r: Reads) returns (deleted: set<string>)
      modifies this
      ensures deleted == Deleted(old(suspects), r)
      ensures suspects == Suspects(old(suspects), r)
      ensures forall v: Volume :: r.volumes.Some? && v in r.volumes.value && v.driver == Some("csi.giosk.io") ==>
                "이미지" + v.handle !in deleted && "NFS 스테이지" + v.handle !in deleted
    {
      ListedIsSpared(old(suspects), r);
      if r.volumes.None? {
        suspects := {};
        return {};
      }
      var live: set<string> := {};
      var vs := r.volumes.value;
      for i := 0 to |vs|
        invariant live == Live(vs[..i])
      {
        assert vs[..i + 1] == vs[..i] + [vs[i]];
        if vs[i].driver.Some? && vs[i].driver.value == DRIVER {
          live := live + {vs[i].handle};
        }
      }
      assert vs[..|vs|] == vs;
      if r.images.None? {
        return {};
      }
      if r.stages.None? {
        return {};
      }
      var next, gone := SweepKind(r.images.value, IMAGE_KIND, live, r.failing, {});
      var gone2;
      next, gone2 := SweepKind(r.stages.value, STAGE_KIND, live, r.failing, next);
      forall a, b ensures IMAGE_KIND + a != STAGE_KIND + b { KindsDisjoint(a, b); }
      suspects := next;
      deleted := gone + gone2;
    }
  }

  // ----- over whole histories

  /** The suspects after a history of sweeps. */
  function After(history: seq<Reads>): set<string> {
    if history == [] then {}
    else Suspects(After(history[..|history| - 1]), history[|history| - 1])
  }

  /** The sweep at k came after a completed sweep at j that saw the key orphaned, with no list failure between. */
  ghost predicate SeenBefore(history: seq<Reads>, j: nat, k: nat, key: string)
    requires j < k <= |history|
  {
    && Completed(history[j]) && key in Orphans(history[j])
    && (forall i :: j < i < k ==> history[i].volumes.Some? && !Completed(history[i]))
  }

  lemma {:induction false} SuspectsWereSeen(history: seq<Reads>, key: string) returns (j: nat)
    requires key in After(history)
    ensures j < |history| && SeenBefore(history, j, |history|, key)
  {
    var n := |history| - 1;
    var last := history[n];
    if Completed(last) {
      j := n;
    } else {
      j := SuspectsWereSeen(history[..n], key);
      assert forall i :: j <= i < n ==> history[..n][i] == history[i];
    }
  }

  /**
   Safety, over every history of sweeps and failures: a key the sweep at k deletes is orphaned now, and was
   orphaned in the last sweep before it that completed, with no volume-list failure since.
   */
  lemma DeletesOnlyTwiceOrphaned(history: seq<Reads>, k: nat, key: string)
    requires k < |history| && key in Deleted(After(history[..k]), history[k])
    ensures Completed(history[k]) && key in Orphans(history[k])
    ensures exists j: nat | j < k :: SeenBefore(history, j, k, key)
  {
    var j := SuspectsWereSeen(history[..k], key);
    assert forall i :: 0 <= i < k ==> history[..k][i] == history[i];
    assert SeenBefore(history, j, k, key);
  }

  /** A volume that is listed now is never deleted now, of either kind, whatever the history. */
  lemma LiveVolumeSurvives(history: seq<Reads>, k: nat, id: string, kind: string)
    requires k < |history| && history[k].volumes.Some?
    requires exists v <- history[k].volumes.value :: v.driver == Some("csi.giosk.io") && v.handle == id
    requires kind == IMAGE_KIND || kind == STAGE_KIND
    ensures kind + id !in Deleted(After(history[..k]), history[k])
  {
    ListedIsSpared(After(history[..k]), history[k]);
  }

  lemma SameKey(kind: string, id: string, o: string)
    requires kind == IMAGE_KIND || kind == STAGE_KIND
    requires kind + id == IMAGE_KIND + o || kind + id == STAGE_KIND + o
    ensures id == o
  {
    KindsDisjoint(id, o);
    KindsDisjoint(o, id);
    assert (kind + id)[|kind|..] == id && (kind + o)[|kind|..] == o;
  }

  /**
   Progress: a key orphaned in a completed sweep at j and in the next completed one at k, with no
   volume-list failure between, is deleted in one of the two unless that deletion fails.
   */
  lemma GoneBySecondSweep(history: seq<Reads>, j: nat, k: nat, key: string)
    requires j < k < |history| && SeenBefore(history, j, k, key)
    requires Completed(history[k]) && key in Orphans(history[k]) && key !in history[k].failing
    ensures key in Deleted(After(history[..j]), history[j]) || key in Deleted(After(history[..k]), history[k])
  {
    if key !in Deleted(After(history[..j]), history[j]) {
      StaysSuspect(history, j, k, key);
    }
  }

  lemma {:induction false} StaysSuspect(history: seq<Reads>, j: nat, k: nat, key: string)
    requires j < k <= |history| && SeenBefore(history, j, k, key)
    requires key !in Deleted(After(history[..j]), history[j])
    ensures key in After(history[..k])
    decreases k
  {
    assert history[..k][..k - 1] == history[..k - 1] && history[..k][k - 1] == history[k - 1];
    if k - 1 > j {
      StaysSuspect(history, j, k - 1, key);
    }
  }

  /** A failed deletion is tried again by the next completed sweep that still finds the key orphaned. */
  lemma FailedDeletionIsRetried(history: seq<Reads>, j: nat, k: nat, key: string)
    requires j < k < |history| && key in Attempted(After(history[..j]), history[j]) && key in history[j].failing
    requires SeenBefore(history, j, k, key) && Completed(history[k]) && key in Orphans(history[k])
    ensures key in Attempted(After(history[..k]), history[k])
  {
    StaysSuspect(history, j, k, key);
  }
}
