/** One pass of the delta consumer: ring buffer to reducer and segment file. */
module DeltaConsumer {
  import opened Bytes
  import opened EntryCodec
  import opened Wrappers
  import opened Location
  import R = UpdateReducer
  import S = SegmentWriter
  import B = RingBuffer

  /** The reducer event for one ring entry. */
  function EventOf(e: Entry): R.Event {
    var loc := AccountLocation(0, 0, TruncU32(|e.data|), 0, TruncU32(|e.data|), e.slot, e.version, Delta);
    R.Added(R.Add(e.key, R.Update(e.slot, e.version, loc)))
  }

  function EventsOf(es: seq<Entry>): seq<R.Event> {
    seq(|es|, i requires 0 <= i < |es| => EventOf(es[i]))
  }

  /** What one more entry means for the invariants of the replay loop. */
  lemma StepFacts(ring: B.Writer, pre: seq<Entry>, w: seq<Entry>, n: nat)
    requires ring.Valid() && ring.Written() == w && n < |w| && S.InRange(pre + w)
    ensures Fits(w[n]) && S.InRange(pre + w[..n] + [w[n]])
    ensures pre + w[..n] + [w[n]] == pre + w[..n + 1]
    ensures EventsOf(w[..n]) + [EventOf(w[n])] == EventsOf(w[..n + 1])
  {
    hide Log;
    assert w[n] in w;
    assert pre + w[..n + 1] == (pre + w)[..|pre| + n + 1];
    assert pre + w[..n] + [w[n]] == pre + w[..n + 1];
    S.InRangePrefix(pre + w, |pre| + n + 1);
  }

  lemma EmptyFacts(pre: seq<Entry>, w: seq<Entry>)
    ensures pre + w[..0] == pre && EventsOf(w[..0]) == []
  {
  }

  // ---------------------------------------------------------------- what becomes pending

  /** Entry `i` is the first of the newest of its account. */
  predicate FirstNewest(es: seq<Entry>, i: nat)
    requires i < |es|
  {
    forall j :: 0 <= j < |es| && es[j].key == es[i].key ==>
      es[j].version < es[i].version || (es[j].version == es[i].version && i <= j)
  }

  /** The update carries the slot, version and data length of entry `e`, not yet placed in a file. */
  predicate CarriedBy(e: Entry, u: R.Update) {
    && u.slot == e.slot && u.version == e.version
    && u.location.slot == e.slot && u.location.writeVersion == e.version && u.location.storageType == Delta
    && u.location.storedSize == u.location.dataLen == |e.data| % 0x1_0000_0000
    && u.location.fileId == 0 && u.location.offset == 0 && u.location.dataOffset == 0
  }

  predicate Written(es: seq<Entry>, k: Pubkey) {
    exists i :: 0 <= i < |es| && es[i].key == k
  }

  /** No entry of `k` is newer than what was pending. */
  predicate Outdated(before: R.Batch, es: seq<Entry>, k: Pubkey) {
    k in before && forall j :: 0 <= j < |es| && es[j].key == k ==> es[j].version <= before[k].version
  }

  /** What is pending for `k` is what was before, where no entry is newer, and otherwise the first newest entry. */
  ghost predicate NewestFor(before: R.Batch, es: seq<Entry>, after: R.Batch, k: Pubkey) {
    && (k in after <==> k in before || Written(es, k))
    && (k in after ==>
          if Outdated(before, es, k) then after[k] == before[k]
          else exists i :: 0 <= i < |es| && es[i].key == k && FirstNewest(es, i) && CarriedBy(es[i], after[k]))
  }

  lemma EventsSnoc(es: seq<Entry>, e: Entry)
    ensures EventsOf(es + [e]) == EventsOf(es) + [EventOf(e)]
  {
  }

  lemma StillNewest(front: seq<Entry>, last: Entry, i: nat)
    requires i < |front| && FirstNewest(front, i)
    ensures FirstNewest(front + [last], i) <==> !(last.key == front[i].key && last.version > front[i].version)
    ensures last.key == front[i].key && last.version > front[i].version ==> FirstNewest(front + [last], |front|)
  {
    var es := front + [last];
    assert es[|front|] == last && es[i] == front[i];
  }

  /** An entry of another account changes nothing for `k`. */
  lemma OneOther(before: R.Batch, front: seq<Entry>, middle: R.Batch, e: Entry, after: R.Batch, k: Pubkey)
    requires NewestFor(before, front, middle, k) && e.key != k
    requires (k in after <==> k in middle) && (k in middle ==> after[k] == middle[k])
    ensures NewestFor(before, front + [e], after, k)
  {
    var es := front + [e];
    hide FirstNewest, CarriedBy;
    assert es[|front|] == e && forall j :: 0 <= j < |front| ==> es[j] == front[j];
    assert Written(es, k) <==> Written(front, k);
    assert Outdated(before, es, k) <==> Outdated(before, front, k);
    if k in middle && !Outdated(before, front, k) {
      var i :| 0 <= i < |front| && front[i].key == k && FirstNewest(front, i) && CarriedBy(front[i], middle[k]);
      StillNewest(front, e, i);
      assert es[i].key == k;
    }
  }

  lemma FirstIsNewest(before: R.Batch, front: seq<Entry>, e: Entry)
    requires Outdated(before, front, e.key) || !Written(front, e.key)
    ensures Written(front + [e], e.key)
    ensures !Outdated(before, front + [e], e.key) ==> FirstNewest(front + [e], |front|)
    ensures Outdated(before, front + [e], e.key) <==> e.key in before && e.version <= before[e.key].version
  {
    var es := front + [e];
    assert es[|front|] == e && forall j :: 0 <= j < |front| ==> es[j] == front[j];
  }

  lemma StaysNewer(before: R.Batch, front: seq<Entry>, e: Entry)
    requires Written(front, e.key) && !Outdated(before, front, e.key)
    ensures Written(front + [e], e.key) && !Outdated(before, front + [e], e.key)
  {
    var es := front + [e];
    assert es[|front|] == e && forall j :: 0 <= j < |front| ==> es[j] == front[j];
  }

  lemma OneOwn(before: R.Batch, front: seq<Entry>, middle: R.Batch, e: Entry, u: R.Update, after: R.Batch)
    requires NewestFor(before, front, middle, e.key) && CarriedBy(e, u)
    requires e.key in after && u.version == e.version
    requires after[e.key] == if e.key in middle && e.version <= middle[e.key].version then middle[e.key] else u
    ensures NewestFor(before, front + [e], after, e.key)
  {
    hide Outdated, Written, FirstNewest;
    var es, k := front + [e], e.key;
    assert es[|front|] == e;
    if Outdated(before, front, k) || !Written(front, k) {
      OutdatedIsBefore(before, front, k);
      FirstIsNewest(before, front, e);
    } else {
      StaysNewer(before, front, e);
      var i :| 0 <= i < |front| && front[i].key == k && FirstNewest(front, i) && CarriedBy(front[i], middle[k]);
      assert front[i].version == middle[k].version && es[i] == front[i];
      hide CarriedBy;
      StillNewest(front, e, i);
    }
  }

  lemma OutdatedIsBefore(before: R.Batch, es: seq<Entry>, k: Pubkey)
    ensures Outdated(before, es, k) ==> k in before
    ensures !Written(es, k) && k in before ==> Outdated(before, es, k)
  {
  }

  lemma OneMore(before: R.Batch, front: seq<Entry>, middle: R.Batch, e: Entry, k: Pubkey)
    requires NewestFor(before, front, middle, k)
    ensures NewestFor(before, front + [e], R.Keep(middle, EventOf(e).add), k)
  {
    var a := EventOf(e).add;
    assert a.key == e.key && CarriedBy(e, a.update) && a.update.version == e.version;
    var after := R.Keep(middle, a);
    hide NewestFor, EventOf, CarriedBy;
    if e.key == k {
      OneOwn(before, front, middle, e, a.update, after);
    } else {
      OneOther(before, front, middle, e, after, k);
    }
  }

  /** Replaying entries after any history of the reducer leaves the newest update of each account pending. */
  lemma {:induction false} ReplayKeepsNewest(run: seq<R.Event>, es: seq<Entry>, k: Pubkey)
    ensures NewestFor(R.Exec(run).pending, es, R.Exec(run + EventsOf(es)).pending, k)
  {
    if es == [] {
      assert run + EventsOf(es) == run;
    } else {
      var front, e := es[..|es| - 1], es[|es| - 1];
      assert es == front + [e];
      ReplayKeepsNewest(run, front, k);
      EventsSnoc(front, e);
      R.ExecSnoc(run + EventsOf(front), EventOf(e));
      assert run + EventsOf(es) == run + EventsOf(front) + [EventOf(e)];
      hide EventsOf, NewestFor;
      OneMore(R.Exec(run).pending, front, R.Exec(run + EventsOf(front)).pending, e, k);
    }
  }

  /** What the delta locator is told about a finished segment. */
  datatype SegmentMeta = SegmentMeta(pathSlot: u64, info: S.SegmentInfo)

  /** The segment side of a consumer: what is open, and what has been closed and registered. */
  datatype Books = Books(
    open: seq<Entry>, startSlot: Option<u64>, registered: seq<SegmentMeta>, closedFiles: map<u64, seq<byte>>)

  /** `now` is `was` after closing the open segment if it holds a full batch: its file keeps the entries
      back to back under a header that records them, and it is registered under its first slot. */
  ghost predicate Settled(batch: nat, was: Books, now: Books) {
    if was.startSlot.Some? && |was.open| >= batch then
      && |was.open| < U64_RANGE && |Log(was.open)| < U64_RANGE &&
      var slot := was.startSlot.value;
      var info := S.SegmentInfo(slot, S.MaxSlot(was.open), |was.open|, |Log(was.open)|);
      && now.open == [] && now.startSlot == None
      && now.registered == was.registered + [SegmentMeta(slot, info)]
      && now.closedFiles.Keys == was.closedFiles.Keys + {slot}
      && (forall k <- was.closedFiles :: k != slot ==> now.closedFiles[k] == was.closedFiles[k])
      && |now.closedFiles[slot]| >= S.HEADER
      && S.ReadInfo(now.closedFiles[slot]) == Ok(info)
      && now.closedFiles[slot][S.HEADER..] == Log(was.open)
    else
      now == was
  }

  class Consumer {
    const flushBatchSize: nat
    const crc32: seq<byte> -> u32
    const reducer: R.Reducer
    var segment: S.Writer?
    var startSlot: Option<u64>
    var segmentEntries: nat
    var totalProcessed: nat
    var registered: seq<SegmentMeta>
    var closedFiles: map<u64, seq<byte>>

    ghost predicate Valid()
      reads this, reducer, segment
    {
      && reducer.Valid()
      && (segment == null ==> startSlot == None && segmentEntries == 0)
      && (segment != null ==>
        && segment.Valid() && segmentEntries == |segment.entries|
        && startSlot == Some(segment.header.startSlot))
    }

    /** The entries in the open segment. */
    ghost function Open(): seq<Entry>
      reads this, segment
    {
      if segment == null then [] else segment.entries
    }

    ghost function Now(): Books
      reads this, segment
    {
      Books(Open(), startSlot, registered, closedFiles)
    }

    constructor (flushBatchSize: nat, crc32: seq<byte> -> u32)
      ensures Valid() && segment == null && registered == [] && totalProcessed == 0
      ensures fresh(reducer) && reducer.run == []
    {
      this.flushBatchSize, this.crc32 := flushBatchSize, crc32;
      segment, startSlot, segmentEntries, totalProcessed, registered, closedFiles := null, None, 0, 0, [], map[];
      reducer := new R.Reducer();
    }

    /** `write_to_segment`: opens a segment named after the slot when none is open, then appends. */
    method WriteToSegment(e: Entry)
      requires Valid() && Fits(e) && S.InRange(Open() + [e])
      modifies this`segment, this`startSlot, this`segmentEntries, segment
      ensures Valid() && segment != null && Open() == old(Open()) + [e]
      ensures segment == old(segment) || fresh(segment)
      ensures startSlot == if old(segment) == null then Some(e.slot) else old(startSlot)
    {
      if segment == null {
        segment := new S.Writer(e.slot, crc32);
        startSlot := Some(e.slot);
        segmentEntries := 0;
      }
      var _ := segment.Append(e);
      segmentEntries := segmentEntries + 1;
    }

    /** `maybe_flush_segment`: closes the open segment once it holds a full batch. */
    method MaybeFlushSegment()
      requires Valid()
      modifies this`segment, this`startSlot, this`segmentEntries, this`registered, this`closedFiles, segment
      ensures Valid() && Settled(flushBatchSize, old(Now()), Now())
    {
      hide Log, S.MaxSlot, S.ReadInfo, S.StructBytes, R.Exec, GetU32, GetU64;
      if segmentEntries >= flushBatchSize && segment != null {
        var writer := segment;
        segment := null;
        var info := writer.Finalize();
        var pathSlot := if startSlot.Some? then startSlot.value else 0;
        registered := registered + [SegmentMeta(pathSlot, info)];
        closedFiles := closedFiles[pathSlot := writer.file];
        startSlot, segmentEntries := None, 0;
      }
    }

    /** `process_updates`: replays the ring from its start, then flushes if the batch is full. */
    method ProcessUpdates(ring: B.Writer) returns (processed: nat)
      requires Valid() && ring.Valid() && S.InRange(Open() + ring.Written())
      modifies this, reducer, segment
      ensures Valid() && processed == |ring.Written()| && totalProcessed == old(totalProcessed) + processed
      ensures reducer.run == old(reducer.run) + EventsOf(ring.Written())
      ensures forall k: Pubkey :: NewestFor(old(reducer.pending), ring.Written(), reducer.pending, k)
      ensures var all := old(Open()) + ring.Written();
        var first := if old(segment) != null then old(startSlot) else if all == [] then None else Some(all[0].slot);
        Settled(flushBatchSize, Books(all, first, old(registered), old(closedFiles)), Now())
    {
      hide Log, S.InRange, S.MaxSlot, S.ReadInfo, Settled, EventsOf, NewestFor;
      processed := Replay(ring);
      forall k: Pubkey ensures NewestFor(old(reducer.pending), ring.Written(), reducer.pending, k) {
        ReplayKeepsNewest(old(reducer.run), ring.Written(), k);
      }
      totalProcessed := totalProcessed + processed;
      MaybeFlushSegment();
    }

    /** The loop of `process_updates`, with a reader opened at position 0. */
    method Replay(ring: B.Writer) returns (processed: nat)
      requires Valid() && ring.Valid() && S.InRange(Open() + ring.Written())
      modifies this`segment, this`startSlot, this`segmentEntries, reducer, segment
      ensures Valid() && processed == |ring.Written()|
      ensures segment == old(segment) || fresh(segment)
      ensures reducer.run == old(reducer.run) + EventsOf(ring.Written())
      ensures Open() == old(Open()) + ring.Written()
      ensures segment == null <==> old(segment) == null && ring.Written() == []
      ensures old(segment) == null && ring.Written() != [] ==> startSlot == Some(ring.Written()[0].slot)
      ensures old(segment) != null ==> startSlot == old(startSlot)
    {
      hide *;
      var reader := new B.Reader(ring);
      ghost var w := ring.Written();
      ghost var pre := Open();
      EmptyFacts(pre, w);
      processed := 0;
      var next := reader.ReadNext();
      while next.Ok? && next.value.Some?
        invariant Valid() && reader.Valid() && reader.ring == ring && ring.Written() == w
        invariant fresh(reader) && (segment == old(segment) || fresh(segment))
        invariant processed <= |w|
        invariant if processed < |w| then next == Ok(Some(w[processed])) && reader.taken == processed + 1
                  else next == Ok(None)
        invariant Open() == pre + w[..processed]
        invariant reducer.run == old(reducer.run) + EventsOf(w[..processed])
        invariant segment == null <==> old(segment) == null && processed == 0
        invariant old(segment) == null && processed > 0 ==> startSlot == Some(w[0].slot)
        invariant old(segment) != null ==> startSlot == old(startSlot)
        decreases |w| - processed
      {
        StepFacts(ring, pre, w, processed);
        ProcessEntry(next.value.value);
        processed := processed + 1;
        next := reader.ReadNext();
      }
      assert w[..processed] == w;
    }

    /** One iteration: remember the update, then write it to the segment. */
    method ProcessEntry(e: Entry)
      requires Valid() && Fits(e) && S.InRange(Open() + [e])
      modifies this`segment, this`startSlot, this`segmentEntries, reducer, segment
      ensures Valid() && segment != null && Open() == old(Open()) + [e]
      ensures segment == old(segment) || fresh(segment)
      ensures startSlot == if old(segment) == null then Some(e.slot) else old(startSlot)
      ensures reducer.run == old(reducer.run) + [EventOf(e)]
    {
      hide Log;
      var loc := AccountLocation(0, 0, TruncU32(|e.data|), 0, TruncU32(|e.data|), e.slot, e.version, Delta);
      var _ := reducer.AddUpdate(e.key, R.Update(e.slot, e.version, loc));
      WriteToSegment(e);
    }
  }
}
