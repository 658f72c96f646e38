/** The format of a CPU profile: header, samples, trailer, all in slots
    (profiledata.cc), and its decoding. */
module ProfileStream {

  type Slot = nat

  const MAX_STACK_DEPTH: nat := 64

  /** A stack and how often it was seen. */
  datatype Sample = Sample(count: nat, stack: seq<Slot>)

  ghost predicate Proper(r: Sample) { r.count > 0 && 0 < |r.stack| <= MAX_STACK_DEPTH }

  function Header(period: Slot): seq<Slot> { [0, 3, 0, period, 0] }

  function Trailer(): seq<Slot> { [0, 1, 0] }

  function Encode(r: Sample): seq<Slot> { [r.count, |r.stack|] + r.stack }

  function EncodeAll(rs: seq<Sample>): seq<Slot> {
    if rs == [] then [] else EncodeAll(rs[..|rs| - 1]) + Encode(rs[|rs| - 1])
  }

  /** All that a finished profile holds before the text of the memory map. */
  function Stream(period: Slot, rs: seq<Sample>): seq<Slot> {
    Header(period) + EncodeAll(rs) + Trailer()
  }

  lemma {:induction false} EncodeJoin(a: seq<Sample>, b: seq<Sample>)
    ensures EncodeAll(a + b) == EncodeAll(a) + EncodeAll(b)
  {
    if b != [] {
      var b1 := b[..|b| - 1];
      EncodeJoin(a, b1);
      assert (a + b)[..|a + b| - 1] == a + b1;
    } else {
      assert a + b == a;
    }
  }

  // ----- decoding

  datatype Decoded = Malformed | Profile(period: Slot, samples: seq<Sample>, rest: seq<Slot>)

  /** Reads samples up to the trailer; a count of zero can only start the trailer. */
  function DecodeSamples(s: seq<Slot>): (r: (seq<Sample>, seq<Slot>))
    decreases |s|
  {
    if |s| < 2 || s[0] == 0 || |s| < 2 + s[1] then ([], s)
    else
      var tail := DecodeSamples(s[2 + s[1]..]);
      ([Sample(s[0], s[2..2 + s[1]])] + tail.0, tail.1)
  }

  function Decode(s: seq<Slot>): Decoded {
    if |s| < 5 || s[0] != 0 || s[1] != 3 || s[2] != 0 || s[4] != 0 then Malformed
    else
      var r := DecodeSamples(s[5..]);
      if |r.1| < 3 || r.1[..3] != Trailer() then Malformed else Profile(s[3], r.0, r.1[3..])
  }

  lemma DecodeOne(r: Sample, t: seq<Slot>)
    requires Proper(r)
    ensures DecodeSamples(Encode(r) + t) == ([r] + DecodeSamples(t).0, DecodeSamples(t).1)
  {
    var s := Encode(r) + t;
    assert s[2..2 + |r.stack|] == r.stack && s[2 + |r.stack|..] == t;
  }

  lemma {:induction false} DecodeEncoded(rs: seq<Sample>, rest: seq<Slot>)
    requires (forall i | 0 <= i < |rs| :: Proper(rs[i])) && (rest == [] || rest[0] == 0)
    ensures DecodeSamples(EncodeAll(rs) + rest) == (rs, rest)
    decreases |rs|
  {
    if rs == [] {
      assert EncodeAll(rs) + rest == rest;
    } else {
      hide Encode, DecodeSamples, Proper;
      var r, tl := rs[0], rs[1..];
      assert Proper(r);
      EncodeJoin([r], tl);
      assert [r] + tl == rs;
      assert EncodeAll([r]) == Encode(r) by { assert [r][..0] == []; }
      assert EncodeAll(rs) + rest == Encode(r) + (EncodeAll(tl) + rest);
      DecodeOne(r, EncodeAll(tl) + rest);
      DecodeEncoded(tl, rest);
    }
  }

  /** A finished profile is read back exactly, whatever text follows it. */
  lemma RoundTrip(period: Slot, rs: seq<Sample>, rest: seq<Slot>)
    requires forall i | 0 <= i < |rs| :: Proper(rs[i])
    ensures Decode(Stream(period, rs) + rest) == Profile(period, rs, rest)
  {
    var s := Stream(period, rs) + rest;
    assert s == Header(period) + (EncodeAll(rs) + (Trailer() + rest));
    assert s[5..] == EncodeAll(rs) + (Trailer() + rest);
    DecodeEncoded(rs, Trailer() + rest);
    assert (Trailer() + rest)[..3] == Trailer() && (Trailer() + rest)[3..] == rest;
  }

  /** So the samples, and the place where they end, are determined by the slots. */
  lemma UniquelyDecoded(p: Slot, rs: seq<Sample>, rest: seq<Slot>, q: Slot, qs: seq<Sample>, rest1: seq<Slot>)
    requires (forall i | 0 <= i < |rs| :: Proper(rs[i])) && forall i | 0 <= i < |qs| :: Proper(qs[i])
    requires Stream(p, rs) + rest == Stream(q, qs) + rest1
    ensures p == q && rs == qs && rest == rest1
  {
    RoundTrip(p, rs, rest);
    RoundTrip(q, qs, rest1);
  }

  // ----- counting

  /** How often a stack is counted in a list of samples. */
  function CountIn(rs: seq<Sample>, k: seq<Slot>): nat {
    if rs == [] then 0 else (if rs[0].stack == k then rs[0].count else 0) + CountIn(rs[1..], k)
  }

  lemma {:induction false} CountJoin(a: seq<Sample>, b: seq<Sample>, k: seq<Slot>)
    ensures CountIn(a + b, k) == CountIn(a, k) + CountIn(b, k)
  {
    if a == [] {
      assert a + b == b;
    } else {
      CountJoin(a[1..], b, k);
      assert (a + b)[1..] == a[1..] + b;
    }
  }

  lemma {:induction false} CountUpdate(rs: seq<Sample>, i: nat, r: Sample, k: seq<Slot>)
    requires i < |rs|
    ensures CountIn(rs[i := r], k) ==
            CountIn(rs, k) - (if rs[i].stack == k then rs[i].count else 0) + (if r.stack == k then r.count else 0)
  {
    if i == 0 {
      assert rs[i := r][1..] == rs[1..];
    } else {
      CountUpdate(rs[1..], i - 1, r, k);
      assert rs[i := r][1..] == rs[1..][i - 1 := r];
    }
  }

  /** The same for all buckets of a table. */
  function CountTable(table: seq<seq<Sample>>, k: seq<Slot>): nat {
    if table == [] then 0 else CountIn(table[0], k) + CountTable(table[1..], k)
  }

  lemma {:induction false} CountTableUpdate(table: seq<seq<Sample>>, b: nat, x: seq<Sample>, k: seq<Slot>)
    requires b < |table|
    ensures CountTable(table[b := x], k) == CountTable(table, k) - CountIn(table[b], k) + CountIn(x, k)
  {
    if b == 0 {
      assert table[b := x][1..] == table[1..];
    } else {
      CountTableUpdate(table[1..], b - 1, x, k);
      assert table[b := x][1..] == table[1..][b - 1 := x];
    }
  }
}
