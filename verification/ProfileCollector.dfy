/** The CPU-profile collector of profiledata.cc: a small hash table of stacks,
    and a buffer for what falls out of it. */
module ProfileCollector {
  import opened ProfileStream

  const ASSOCIATIVITY: nat := 4
  const BUCKETS: nat := 1024
  const BUFFER_LENGTH: nat := 262144
  const SLOT_LIMIT: nat := 0x1_0000_0000_0000_0000

  const UNUSED: Sample := Sample(0, [])

  /** The hash value of a stack in 64-bit arithmetic: rotate left by 8 and add. */
  function Hash(stack: seq<Slot>): nat {
    if stack == [] then 0
    else
      var h := Hash(stack[..|stack| - 1]);
      ((h * 256 % SLOT_LIMIT + h / 0x100_0000_0000_0000) % SLOT_LIMIT + stack[|stack| - 1] * 41) % SLOT_LIMIT
  }

  function Truncated(stack: seq<Slot>): seq<Slot> {
    if |stack| > MAX_STACK_DEPTH then stack[..MAX_STACK_DEPTH] else stack
  }

  lemma TruncatedPrefix(stack: seq<Slot>)
    ensures Truncated(stack) <= stack && |Truncated(stack)| == if |stack| < MAX_STACK_DEPTH then |stack| else MAX_STACK_DEPTH
  {
  }

  ghost predicate EntryOK(e: Sample) { e == UNUSED || Proper(e) }

  ghost predicate BucketOK(bucket: seq<Sample>) {
    |bucket| == ASSOCIATIVITY && forall a | 0 <= a < ASSOCIATIVITY :: EntryOK(bucket[a])
  }

  ghost predicate TableOK(table: seq<seq<Sample>>) {
    |table| == BUCKETS && forall b | 0 <= b < BUCKETS :: BucketOK(table[b])
  }

  ghost predicate AllProper(rs: seq<Sample>) { forall i | 0 <= i < |rs| :: Proper(rs[i]) }

  /** Every stack that was added is counted, in a sample or in the table. */
  ghost predicate Conserved(records: seq<Sample>, table: seq<seq<Sample>>, added: multiset<seq<Slot>>) {
    forall k: seq<Slot> :: CountIn(records, k) + CountTable(table, k) == added[k]
  }

  class ProfileData {
    var hash: array?<seq<Sample>>    // buckets of ASSOCIATIVITY entries
    var evict: array?<Slot>
    var numEvicted: nat
    var enabled: bool
    var count: nat
    var evictions: nat
    var written: seq<Slot>           // what has gone to the file

    ghost var period: Slot
    ghost var records: seq<Sample>   // the samples that left the table
    ghost var added: multiset<seq<Slot>>

    /** The file and the buffer together are the header and the samples so far. */
    ghost predicate Streamed()
      reads `evict, `numEvicted, `written, `records, `period, evict
    {
      && evict != null && evict.Length == BUFFER_LENGTH && numEvicted <= BUFFER_LENGTH
      && written + evict[..numEvicted] == Header(period) + EncodeAll(records) && AllProper(records)
    }

    ghost predicate Valid()
      reads this, hash, evict
    {
      if enabled then
        Streamed() && hash != null && TableOK(hash[..]) && Conserved(records, hash[..], added) && |added| == count
      else hash == null && evict == null && numEvicted == 0
    }

    constructor ()
      ensures Valid() && !enabled
    {
      hash, evict, numEvicted, enabled, count, evictions, written := null, null, 0, false, 0, 0, [];
      period, records, added := 0, [], multiset{};
    }

    /** Opens a profile; `canOpen` says whether the file could be created. */
    method Start(canOpen: bool, frequency: nat) returns (started: bool)
      requires Valid() && frequency != 0
      modifies this
      ensures Valid() && (started <==> !old(enabled) && canOpen) && (enabled <==> old(enabled) || canOpen)
      ensures started ==> added == multiset{} && records == [] && period == 1000000 / frequency && count == 0
      ensures !started ==> added == old(added) && records == old(records) && period == old(period) && written == old(written)
    {
      hide Conserved, BucketOK, CountTable, CountIn, EntryOK, Proper, TableOK, Header;
      if enabled {
        return false;
      }
      if !canOpen {
        return false;
      }
      numEvicted, count, evictions, written := 0, 0, 0, [];
      hash := new seq<Sample>[BUCKETS](_ => [UNUSED, UNUSED, UNUSED, UNUSED]);
      evict := new Slot[BUFFER_LENGTH];
      WriteHeader(1000000 / frequency);
      enabled := true;
      period, records, added := 1000000 / frequency, [], multiset{};
      EmptyStart(hash[..]);
      return true;
    }

    /** The special entries at the start of the buffer. */
    method WriteHeader(period: Slot)
      requires evict != null && evict.Length == BUFFER_LENGTH && numEvicted == 0
      modifies `numEvicted, evict
      ensures numEvicted == 5 && evict[..numEvicted] == Header(period)
    {
      Append(0);
      Append(3);
      Append(0);
      Append(period);
      Append(0);
    }

    /** Stores one slot in the buffer. */
    method Append(x: Slot)
      requires evict != null && numEvicted < evict.Length
      modifies `numEvicted, evict
      ensures numEvicted == old(numEvicted) + 1 && evict[..numEvicted] == old(evict[..numEvicted]) + [x]
    {
      evict[numEvicted] := x;
      numEvicted := numEvicted + 1;
    }

    /** Copies slots to the buffer. */
    method AppendAll(xs: seq<Slot>)
      requires evict != null && numEvicted + |xs| <= evict.Length
      modifies `numEvicted, evict
      ensures numEvicted == old(numEvicted) + |xs| && evict[..numEvicted] == old(evict[..numEvicted]) + xs
    {
      forall j | 0 <= j < |xs| {
        evict[numEvicted + j] := xs[j];
      }
      numEvicted := numEvicted + |xs|;
    }

    /** FlushEvicted: the buffer goes to the file. */
    method FlushEvicted()
      requires evict != null && numEvicted <= evict.Length
      modifies `numEvicted, `written
      ensures numEvicted == 0 && written == old(written + evict[..numEvicted])
      ensures evict != null && written + evict[..numEvicted] == old(written + evict[..numEvicted])
    {
      if numEvicted > 0 {
        written := written + evict[..numEvicted];
      }
      numEvicted := 0;
    }

    /** Evict: one entry goes to the buffer, which is written out first when full. */
    method Evict(entry: Sample)
      requires Streamed() && Proper(entry)
      modifies `numEvicted, `written, `records, evict
      ensures Streamed() && records == old(records) + [entry]
    {
      hide Proper, EncodeAll, Header, AllProper, Encode;
      ProperDepth(entry);
      AddProper(records, entry);
      var d := |entry.stack|;
      var nslots := d + 2;
      if numEvicted + nslots > BUFFER_LENGTH {
        FlushEvicted();
      }
      StreamGrows(written, evict[..numEvicted], period, records, entry);
      Append(entry.count);
      Append(d);
      AppendAll(entry.stack);
      records := records + [entry];
    }

    /** Counts one more occurrence of a stack. */
    method Add(stack0: seq<Slot>)
      requires Valid() && |stack0| > 0
      modifies this, hash, evict
      ensures Valid() && enabled == old(enabled) && period == old(period)
      ensures added == if enabled then old(added) + multiset{Truncated(stack0)} else old(added)
      ensures hash == old(hash) && (!enabled ==> records == old(records))
      // the stack's own bucket counts it; only if it does not know the stack, an entry
      // with the least count makes room, and is evicted if it was in use
      ensures enabled ==>
                var stack := Truncated(stack0);
                var b := Hash(stack) % BUCKETS;
                && b < hash.Length && (forall c | 0 <= c < hash.Length && c != b :: hash[c] == old(hash[c]))
                && |old(hash[b])| == ASSOCIATIVITY
                && if Found(old(hash[b]), stack) then records == old(records) && CountedOne(old(hash[b]), hash[b], stack)
                   else Replaced(old(hash[b]), hash[b], old(records), records, stack)
    {
      hide AllProper, Conserved, CountTable, Encode, EncodeAll, EntryOK, Plus, Found, CountedOne, Replaced;
      if !enabled {
        return;
      }
      var stack := Truncated(stack0);
      count := count + 1;
      var b := Hash(stack) % BUCKETS;
      ghost var table, rs, all := hash[..], records, added;
      BucketAt(table, b);
      var done := CountMatch(b, stack);
      if !done {
        Replace(b, stack);
      }
      added := added + multiset{stack};
      TableStill(table, hash[..], b);
      StillConserved(rs, table, all, records, hash[..], b, stack);
    }

    /** The search of Add: an entry with the same stack is counted up. */
    method CountMatch(b: nat, stack: seq<Slot>) returns (done: bool)
      requires hash != null && b < hash.Length && BucketOK(hash[b]) && 0 < |stack| <= MAX_STACK_DEPTH
      modifies hash
      ensures forall c | 0 <= c < hash.Length && c != b :: hash[c] == old(hash[c])
      ensures !done ==> hash[b] == old(hash[b])
      ensures done ==> BucketOK(hash[b]) && Plus(old(hash[b]), hash[b], stack) && CountedOne(old(hash[b]), hash[b], stack)
      ensures done <==> Found(old(hash[b]), stack)
    {
      done := false;
      var a := 0;
      while a < ASSOCIATIVITY
        invariant 0 <= a <= ASSOCIATIVITY && hash[b] == old(hash[b]) && unchanged(hash)
        invariant forall c | 0 <= c < a :: hash[b][c].stack != stack
      {
        var e := hash[b][a];
        if e.stack == stack {
          CountedUp(hash[b], a, stack);
          hash[b] := hash[b][a := Sample(e.count + 1, stack)];
          return true;
        }
        a := a + 1;
      }
    }

    /** Otherwise the entry with the smallest count makes room. */
    method Replace(b: nat, stack: seq<Slot>)
      requires Streamed() && hash != null && b < hash.Length && BucketOK(hash[b]) && |hash[b]| == ASSOCIATIVITY
      requires 0 < |stack| <= MAX_STACK_DEPTH
      modifies `numEvicted, `written, `records, `evictions, evict, hash
      ensures Streamed() && BucketOK(hash[b]) && forall c | 0 <= c < hash.Length && c != b :: hash[c] == old(hash[c])
      ensures Replaced(old(hash[b]), hash[b], old(records), records, stack)
    {
      hide Replaced, BucketOK, EntryOK, Proper, Header, EncodeAll, AllProper;
      ghost var bucket := hash[b];
      var a := Smallest(hash[b]);
      var e := hash[b][a];
      EntryReplaced(bucket, a, records, stack);
      if e.count > 0 {
        evictions := evictions + 1;
        Evict(e);
      }
      hash[b] := hash[b][a := Sample(1, stack)];
    }

    /** FlushTable: everything goes to the file, and the table is emptied. */
    method FlushTable()
      requires Valid()
      modifies this, hash, evict
      ensures Valid() && enabled == old(enabled) && added == old(added) && period == old(period)
      ensures enabled ==> numEvicted == 0 && forall k: seq<Slot> :: CountIn(records, k) == added[k]
    {
      hide AllProper, CountIn, CountTable, Encode, EncodeAll, Header, Conserved;
      if !enabled {
        return;
      }
      ghost var table, rs := hash[..], records;
      AllCounted(records, table, added);
      var b := 0;
      while b < BUCKETS
        invariant b <= BUCKETS && Streamed() && hash != null && hash.Length == BUCKETS && enabled
        invariant hash == old(hash) && evict == old(evict) && added == old(added) && count == old(count) && period == old(period)
        invariant forall c | 0 <= c < b :: hash[c] == [UNUSED, UNUSED, UNUSED, UNUSED]
        invariant forall c | b <= c < BUCKETS :: hash[c] == table[c]
        invariant forall k: seq<Slot> :: CountIn(records, k) + CountTable(table[b..], k) == added[k]
      {
        BucketAt(table, b);
        ghost var before := records;
        EvictBucket(b);
        BucketFlushed(table, b, before, records, added);
        hash[b] := [UNUSED, UNUSED, UNUSED, UNUSED];
        b := b + 1;
      }
      FlushEvicted();
      AllFlushed(records, hash[..], added, table[b..]);
    }

    /** Evicts the entries in use of one bucket. */
    method EvictBucket(b: nat)
      requires Streamed() && hash != null && b < hash.Length && BucketOK(hash[b])
      modifies `numEvicted, `written, `records, evict
      ensures Streamed()
      ensures forall k: seq<Slot> :: CountIn(records, k) == CountIn(old(records), k) + CountIn(hash[b], k)
    {
      ghost var bucket, rs := hash[b], records;
      var a := 0;
      assert bucket[..a] == [];
      while a < ASSOCIATIVITY
        invariant 0 <= a <= ASSOCIATIVITY && Streamed()
        invariant forall k: seq<Slot> :: CountIn(records, k) == CountIn(rs, k) + CountIn(bucket[..a], k)
      {
        ghost var before := records;
        var e := hash[b][a];
        if e.count > 0 {
          Evict(e);
        }
        forall k: seq<Slot> ensures CountIn(records, k) == CountIn(rs, k) + CountIn(bucket[..a + 1], k) {
          assert bucket[..a + 1] == bucket[..a] + [e];
          CountJoin(bucket[..a], [e], k);
          CountJoin(before, [e], k);
        }
        a := a + 1;
      }
      assert bucket[..a] == bucket;
    }

    /** Stop: the file is complete, and nothing that was added is missing. */
    method Stop()
      requires Valid()
      modifies this, hash, evict
      ensures Valid() && !enabled && added == old(added) && period == old(period)
      ensures old(enabled) ==> written == Stream(period, records) && AllProper(records)
      ensures old(enabled) ==> forall text: seq<Slot> :: Decode(written + text) == Profile(period, records, text)
      ensures old(enabled) ==> forall k: seq<Slot> :: CountIn(records, k) == added[k]
    {
      hide Conserved, BucketOK, EntryOK, Proper, EncodeAll, Header, Decode, Stream;
      if !enabled {
        return;
      }
      ghost var table := hash[..];
      AllCounted(records, table, added);
      var b := 0;
      while b < BUCKETS
        invariant b <= BUCKETS && Streamed() && hash == old(hash) && hash[..] == table && evict == old(evict)
        invariant enabled && added == old(added) && period == old(period)
        invariant forall k: seq<Slot> :: CountIn(records, k) + CountTable(table[b..], k) == added[k]
      {
        BucketAt(table, b);
        ghost var before := records;
        EvictBucket(b);
        BucketFlushed(table, b, before, records, added);
        b := b + 1;
      }
      Finish();
      Reset();
    }

    /** The end of data marker; the file is complete. */
    method Finish()
      requires Streamed()
      modifies `numEvicted, `written, evict
      ensures written == Stream(period, records)
      ensures forall text: seq<Slot> :: Decode(written + text) == Profile(period, records, text)
    {
      hide Proper, EncodeAll, Header, Decode, Stream;
      if numEvicted + 3 > BUFFER_LENGTH {
        FlushEvicted();
      }
      StreamEnds(written, evict[..numEvicted], period, records);
      Append(0);
      Append(1);
      Append(0);
      FlushEvicted();
      ReadBack(period, records);
    }

    /** Reset: collection ends; what is not in the file is dropped. */
    method Reset()
      modifies `hash, `evict, `numEvicted, `enabled
      ensures enabled == false && (old(enabled) ==> hash == null && evict == null && numEvicted == 0)
      ensures !old(enabled) ==> hash == old(hash) && evict == old(evict) && numEvicted == old(numEvicted)
    {
      if !enabled {
        return;
      }
      hash, evict, numEvicted, enabled := null, null, 0, false;
    }
  }

  lemma ProperDepth(e: Sample)
    requires Proper(e)
    ensures |e.stack| <= MAX_STACK_DEPTH
  {
  }

  lemma AddProper(rs: seq<Sample>, r: Sample)
    requires AllProper(rs) && Proper(r)
    ensures AllProper(rs + [r])
  {
  }

  lemma StreamEnds(written: seq<Slot>, buffer: seq<Slot>, period: Slot, rs: seq<Sample>)
    requires written + buffer == Header(period) + EncodeAll(rs)
    ensures written + (buffer + [0] + [1] + [0]) == Stream(period, rs)
  {
    assert written + (buffer + [0] + [1] + [0]) == (written + buffer) + Trailer();
  }

  lemma ReadBack(period: Slot, rs: seq<Sample>)
    requires AllProper(rs)
    ensures forall text: seq<Slot> :: Decode(Stream(period, rs) + text) == Profile(period, rs, text)
  {
    forall text: seq<Slot> ensures Decode(Stream(period, rs) + text) == Profile(period, rs, text) {
      RoundTrip(period, rs, text);
    }
  }

  lemma StreamGrows(written: seq<Slot>, buffer: seq<Slot>, period: Slot, rs: seq<Sample>, r: Sample)
    requires written + buffer == Header(period) + EncodeAll(rs)
    ensures written + (buffer + [r.count] + [|r.stack|] + r.stack) == Header(period) + EncodeAll(rs + [r])
  {
    assert (rs + [r])[..|rs + [r]| - 1] == rs;
    assert written + (buffer + [r.count] + [|r.stack|] + r.stack) == (written + buffer) + Encode(r);
  }

  lemma {:induction false} EmptyTable(table: seq<seq<Sample>>, k: seq<Slot>)
    requires forall b | 0 <= b < |table| :: table[b] == [UNUSED, UNUSED, UNUSED, UNUSED]
    ensures CountTable(table, k) == 0
  {
    if table != [] {
      EmptyTable(table[1..], k);
      EmptyBucket(k);
    }
  }

  lemma EmptyStart(table: seq<seq<Sample>>)
    requires |table| == BUCKETS && forall b | 0 <= b < |table| :: table[b] == [UNUSED, UNUSED, UNUSED, UNUSED]
    ensures TableOK(table) && Conserved([], table, multiset{})
  {
    forall k: seq<Slot> ensures CountTable(table, k) == 0 { EmptyTable(table, k); }
  }

  lemma EmptyBucket(k: seq<Slot>)
    ensures CountIn([UNUSED, UNUSED, UNUSED, UNUSED], k) == 0
  {
    CountJoin([UNUSED, UNUSED], [UNUSED, UNUSED], k);
    assert [UNUSED, UNUSED] + [UNUSED, UNUSED] == [UNUSED, UNUSED, UNUSED, UNUSED];
  }

  lemma AllCounted(rs: seq<Sample>, table: seq<seq<Sample>>, added: multiset<seq<Slot>>)
    requires Conserved(rs, table, added)
    ensures forall k: seq<Slot> :: CountIn(rs, k) + CountTable(table[0..], k) == added[k]
  {
    assert table[0..] == table;
  }

  lemma AllFlushed(rs: seq<Sample>, table: seq<seq<Sample>>, added: multiset<seq<Slot>>, left: seq<seq<Sample>>)
    requires |table| == BUCKETS && forall b | 0 <= b < |table| :: table[b] == [UNUSED, UNUSED, UNUSED, UNUSED]
    requires left == [] && forall k: seq<Slot> :: CountIn(rs, k) + CountTable(left, k) == added[k]
    ensures TableOK(table) && Conserved(rs, table, added) && forall k: seq<Slot> :: CountIn(rs, k) == added[k]
  {
    forall k: seq<Slot> ensures CountTable(table, k) == 0 && CountIn(rs, k) == added[k] {
      EmptyTable(table, k);
      assert CountIn(rs, k) + CountTable(left, k) == added[k];
    }
  }

  lemma BucketAt(table: seq<seq<Sample>>, b: nat)
    requires TableOK(table) && b < BUCKETS
    ensures BucketOK(table[b]) && |table[b]| == ASSOCIATIVITY
  {
    assert BucketOK(table[b]);
  }

  lemma TableStill(table: seq<seq<Sample>>, table1: seq<seq<Sample>>, b: nat)
    requires TableOK(table) && |table1| == |table| && b < |table| && BucketOK(table1[b])
    requires forall c | 0 <= c < |table| && c != b :: table1[c] == table[c]
    ensures TableOK(table1)
  {
    hide BucketOK;
  }

  /** The bucket counts one more occurrence of the stack. */
  ghost predicate Plus(bucket: seq<Sample>, bucket1: seq<Sample>, stack: seq<Slot>) {
    forall k: seq<Slot> :: CountIn(bucket1, k) == CountIn(bucket, k) + if k == stack then 1 else 0
  }

  /** An entry with the least count made room for the stack, and left as a sample if
      it was in use. */
  ghost predicate Replaced(bucket: seq<Sample>, bucket1: seq<Sample>, rs: seq<Sample>, rs1: seq<Sample>, stack: seq<Slot>)
    requires |bucket| == ASSOCIATIVITY
  {
    exists a :: 0 <= a < ASSOCIATIVITY && bucket1 == bucket[a := Sample(1, stack)]
      && rs1 == rs + (if bucket[a].count > 0 then [bucket[a]] else [])
      && forall c | 0 <= c < ASSOCIATIVITY :: bucket[a].count <= bucket[c].count
  }

  lemma EntryReplaced(bucket: seq<Sample>, a: nat, rs: seq<Sample>, stack: seq<Slot>)
    requires BucketOK(bucket) && a < ASSOCIATIVITY && forall c | 0 <= c < ASSOCIATIVITY :: bucket[a].count <= bucket[c].count
    requires 0 < |stack| <= MAX_STACK_DEPTH
    ensures BucketOK(bucket[a := Sample(1, stack)])
    ensures bucket[a].count > 0 ==>
              Proper(bucket[a]) && Replaced(bucket, bucket[a := Sample(1, stack)], rs, rs + [bucket[a]], stack)
    ensures bucket[a].count == 0 ==> Replaced(bucket, bucket[a := Sample(1, stack)], rs, rs, stack)
  {
    assert rs + [] == rs;
  }

  ghost predicate Found(bucket: seq<Sample>, stack: seq<Slot>) {
    exists a :: 0 <= a < |bucket| && bucket[a].stack == stack
  }

  /** One entry for the stack counts one more. */
  ghost predicate CountedOne(bucket: seq<Sample>, bucket1: seq<Sample>, stack: seq<Slot>) {
    exists a :: 0 <= a < |bucket| && bucket[a].stack == stack && bucket1 == bucket[a := Sample(bucket[a].count + 1, stack)]
  }

  /** What was in a bucket is in the samples once the bucket was evicted. */
  lemma BucketFlushed(table: seq<seq<Sample>>, b: nat, rs: seq<Sample>, rs1: seq<Sample>, added: multiset<seq<Slot>>)
    requires b < |table| && forall k: seq<Slot> :: CountIn(rs, k) + CountTable(table[b..], k) == added[k]
    requires forall k: seq<Slot> :: CountIn(rs1, k) == CountIn(rs, k) + CountIn(table[b], k)
    ensures forall k: seq<Slot> :: CountIn(rs1, k) + CountTable(table[b + 1..], k) == added[k]
  {
    hide CountIn;
    forall k: seq<Slot> ensures CountIn(rs1, k) + CountTable(table[b + 1..], k) == added[k] {
      assert table[b..][0] == table[b] && table[b..][1..] == table[b + 1..];
    }
  }

  lemma CountedUp(bucket: seq<Sample>, a: nat, stack: seq<Slot>)
    requires BucketOK(bucket) && a < ASSOCIATIVITY && bucket[a].stack == stack && 0 < |stack| <= MAX_STACK_DEPTH
    ensures BucketOK(bucket[a := Sample(bucket[a].count + 1, stack)])
    ensures Plus(bucket, bucket[a := Sample(bucket[a].count + 1, stack)], stack)
  {
    forall k: seq<Slot>
      ensures CountIn(bucket[a := Sample(bucket[a].count + 1, stack)], k) == CountIn(bucket, k) + if k == stack then 1 else 0
    {
      CountUpdate(bucket, a, Sample(bucket[a].count + 1, stack), k);
    }
  }

  /** The choice of the entry to evict. */
  method Smallest(bucket: seq<Sample>) returns (e: nat)
    requires |bucket| == ASSOCIATIVITY
    ensures e < ASSOCIATIVITY && forall a | 0 <= a < ASSOCIATIVITY :: bucket[e].count <= bucket[a].count
  {
    e := 0;
    var a := 1;
    while a < ASSOCIATIVITY
      invariant e < ASSOCIATIVITY && a <= ASSOCIATIVITY && forall c | 0 <= c < a :: bucket[e].count <= bucket[c].count
    {
      if bucket[a].count < bucket[e].count {
        e := a;
      }
      a := a + 1;
    }
  }

  /** Either way, exactly one more occurrence of exactly that stack is counted. */
  lemma StillConserved(rs: seq<Sample>, table: seq<seq<Sample>>, added: multiset<seq<Slot>>,
                       rs1: seq<Sample>, table1: seq<seq<Sample>>, b: nat, stack: seq<Slot>)
    requires Conserved(rs, table, added) && |table| == |table1| && b < |table|
    requires forall c | 0 <= c < |table| && c != b :: table1[c] == table[c]
    requires |table[b]| == ASSOCIATIVITY
    requires (rs1 == rs && Plus(table[b], table1[b], stack)) || Replaced(table[b], table1[b], rs, rs1, stack)
    ensures Conserved(rs1, table1, added + multiset{stack})
  {
    assert table1 == table[b := table1[b]];
    forall k: seq<Slot> ensures CountIn(rs1, k) + CountTable(table1, k) == (added + multiset{stack})[k] {
      CountTableUpdate(table, b, table1[b], k);
      if !(rs1 == rs && Plus(table[b], table1[b], stack)) {
        var a :| 0 <= a < ASSOCIATIVITY && table1[b] == table[b][a := Sample(1, stack)]
                 && rs1 == rs + (if table[b][a].count > 0 then [table[b][a]] else []);
        CountUpdate(table[b], a, Sample(1, stack), k);
        CountJoin(rs, [table[b][a]], k);
      }
    }
  }
}
