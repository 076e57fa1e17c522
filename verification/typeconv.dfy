/** The native type manager: a bucketed table of conversions, and overload selection over it. */
module TypeConv {
  import opened Lru
  import opened Ratings

  datatype Code = TccFalse | Exact | Subtype | Promote | ConvertSafe | ConvertUnsafe

  type TypePair = (int, int)

  datatype Record = Record(key: TypePair, val: Code)

  const TCCMAP_SIZE := 512

  // ---- the plain map ----

  /** The value last written for a key; TccFalse for a key never written. */
  function LastWrite(log: seq<Record>, key: TypePair): Code {
    if log == [] then TccFalse
    else if log[|log| - 1].key == key then log[|log| - 1].val
    else LastWrite(log[..|log| - 1], key)
  }

  function WrittenKeys(log: seq<Record>): set<TypePair> {
    set r | r in log :: r.key
  }

  // ---- the bins ----

  function BinOf(hash: TypePair -> nat, key: TypePair): (i: nat)
    ensures i < TCCMAP_SIZE
  {
    hash(key) % TCCMAP_SIZE
  }

  predicate InBin(bin: seq<Record>, key: TypePair) {
    exists j :: 0 <= j < |bin| && bin[j].key == key
  }

  /** A bin's records are of its hash, hold the last writes, and repeat no key. */
  ghost predicate BinOk(hash: TypePair -> nat, i: nat, bin: seq<Record>, log: seq<Record>) {
    && (forall j :: 0 <= j < |bin| ==>
          && BinOf(hash, bin[j].key) == i && bin[j].key in WrittenKeys(log)
          && bin[j].val == LastWrite(log, bin[j].key))
    && forall j, k :: 0 <= j < k < |bin| ==> bin[j].key != bin[k].key
  }

  ghost predicate BinsOk(hash: TypePair -> nat, bins: seq<seq<Record>>, log: seq<Record>) {
    && |bins| == TCCMAP_SIZE
    && (forall i :: 0 <= i < |bins| ==> BinOk(hash, i, bins[i], log))
    && forall key :: key in WrittenKeys(log) ==> InBin(bins[BinOf(hash, key)], key)
  }

  lemma OtherBin(hash: TypePair -> nat, i: nat, bin: seq<Record>, log: seq<Record>, r: Record)
    requires BinOk(hash, i, bin, log) && BinOf(hash, r.key) != i
    ensures BinOk(hash, i, bin, log + [r])
  {
    WriteAppend(log, r);
  }

  /** insert on a present key overwrites its record. */
  lemma OverwriteBin(hash: TypePair -> nat, i: nat, bin: seq<Record>, log: seq<Record>, r: Record, j: nat)
    requires BinOk(hash, i, bin, log) && j < |bin| && bin[j].key == r.key
    ensures BinOk(hash, i, bin[j := r], log + [r])
    ensures forall key :: InBin(bin, key) ==> InBin(bin[j := r], key)
  {
    WriteAppend(log, r);
    forall key | InBin(bin, key) ensures InBin(bin[j := r], key) {
      var k :| 0 <= k < |bin| && bin[k].key == key;
      assert bin[j := r][k].key == key;
    }
  }

  lemma AppendBin(hash: TypePair -> nat, i: nat, bin: seq<Record>, log: seq<Record>, r: Record)
    requires BinOk(hash, i, bin, log) && BinOf(hash, r.key) == i && !InBin(bin, r.key)
    ensures BinOk(hash, i, bin + [r], log + [r])
    ensures InBin(bin + [r], r.key) && forall key :: InBin(bin, key) ==> InBin(bin + [r], key)
  {
    WriteAppend(log, r);
    var bin' := bin + [r];
    assert bin'[|bin|].key == r.key;
    forall key | InBin(bin, key) ensures InBin(bin', key) {
      var k :| 0 <= k < |bin| && bin[k].key == key;
      assert bin'[k].key == key;
    }
  }

  lemma ReplaceBin(hash: TypePair -> nat, bins: seq<seq<Record>>, log: seq<Record>, r: Record, bin: seq<Record>)
    requires BinsOk(hash, bins, log)
    requires var i := BinOf(hash, r.key);
             && BinOk(hash, i, bin, log + [r]) && InBin(bin, r.key)
             && forall key :: InBin(bins[i], key) ==> InBin(bin, key)
    ensures BinsOk(hash, bins[BinOf(hash, r.key) := bin], log + [r])
  {
    var i := BinOf(hash, r.key);
    var bins' := bins[i := bin];
    WriteAppend(log, r);
    forall k | 0 <= k < |bins'| ensures BinOk(hash, k, bins'[k], log + [r]) {
      if k != i { OtherBin(hash, k, bins[k], log, r); }
    }
  }

  /** A write adds a distinct key exactly when its bin lacks it. */
  lemma WrittenCount(hash: TypePair -> nat, bins: seq<seq<Record>>, log: seq<Record>, r: Record)
    requires BinsOk(hash, bins, log)
    ensures |WrittenKeys(log + [r])| == |WrittenKeys(log)| + if InBin(bins[BinOf(hash, r.key)], r.key) then 0 else 1
  {
    WriteAppend(log, r);
    var bin := bins[BinOf(hash, r.key)];
    if InBin(bin, r.key) {
      var j :| 0 <= j < |bin| && bin[j].key == r.key;
      assert WrittenKeys(log + [r]) == WrittenKeys(log);
    } else {
      assert r.key !in WrittenKeys(log);
    }
  }

  /** The bucketed table.  log is the history of insertions. */
  class TCCMap {
    const hash: TypePair -> nat
    const records: array<seq<Record>>
    var nbRecords: int
    ghost var log: seq<Record>

    /** The bins agree with the history, and the counter counts its distinct keys. */
    ghost predicate Valid()
      reads this, records
    {
      BinsOk(hash, records[..], log) && nbRecords == |WrittenKeys(log)|
    }

    constructor (hash: TypePair -> nat)
      ensures Valid() && fresh(records) && log == [] && nbRecords == 0
    {
      this.hash := hash;
      records := new seq<Record>[TCCMAP_SIZE](_ => []);
      nbRecords := 0;
      log := [];
    }

    method Insert(key: TypePair, val: Code)
      requires Valid()
      modifies this, records
      ensures Valid() && log == old(log) + [Record(key, val)]
    {
      var i := BinOf(hash, key);
      var bin := records[i];
      var j := 0;
      while j < |bin| && bin[j].key != key
        invariant j <= |bin| && forall k :: 0 <= k < j ==> bin[k].key != key
      {
        j := j + 1;
      }
      ghost var bins, r := records[..], Record(key, val);
      WrittenCount(hash, bins, log, r);
      if j < |bin| {
        OverwriteBin(hash, i, bin, log, r, j);
        ReplaceBin(hash, bins, log, r, bin[j := r]);
        records[i] := bin[j := Record(key, val)];
        assert records[..] == bins[i := bin[j := r]];
      } else {
        AppendBin(hash, i, bin, log, r);
        ReplaceBin(hash, bins, log, r, bin + [r]);
        records[i] := bin + [Record(key, val)];
        assert records[..] == bins[i := bin + [r]];
        nbRecords := nbRecords + 1;
      }
      log := log + [r];
    }

    method Find(key: TypePair) returns (val: Code)
      requires Valid()
      ensures val == LastWrite(log, key)
    {
      var bin := records[BinOf(hash, key)];
      for j := 0 to |bin|
        invariant forall k :: 0 <= k < j ==> bin[k].key != key
      {
        if bin[j].key == key { return bin[j].val; }
      }
      NeverWritten(log, key);
      val := TccFalse;
    }
  }

  lemma WriteAppend(log: seq<Record>, r: Record)
    ensures WrittenKeys(log + [r]) == WrittenKeys(log) + {r.key}
    ensures forall key :: LastWrite(log + [r], key) == if key == r.key then r.val else LastWrite(log, key)
  {
    assert (log + [r])[..|log|] == log;
    forall key ensures key in WrittenKeys(log + [r]) <==> key in WrittenKeys(log) + {r.key} {
      if key in WrittenKeys(log) {
        var s :| s in log && s.key == key;
        assert s in log + [r];
      }
      if key == r.key { assert r in log + [r]; }
    }
  }

  lemma {:induction false} NeverWritten(log: seq<Record>, key: TypePair)
    requires key !in WrittenKeys(log)
    ensures LastWrite(log, key) == TccFalse
  {
    if log != [] {
      var n := |log| - 1;
      assert log[n] in log;
      assert forall r :: r in log[..n] ==> r in log;
      NeverWritten(log[..n], key);
    }
  }

  /** LastWrite is last-write-wins: a later write to the key would have won. */
  lemma {:induction false} LastWriteWins(log: seq<Record>, key: TypePair, i: nat)
    requires i < |log| && log[i].key == key && forall j :: i < j < |log| ==> log[j].key != key
    ensures LastWrite(log, key) == log[i].val
    decreases |log|
  {
    if i < |log| - 1 { LastWriteWins(log[..|log| - 1], key, i); }
  }
}
