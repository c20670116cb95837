/** Runs of optional fixed-width fields, each announced by its own flag: the shape shared by most
    subrecords and by the header of a service record. */
module Fields {
  import opened Bytes

  /** A field of n octets, present when the flag is "1". */
  datatype Slot = Slot(flag: string, n: nat)

  datatype Parsed = Parsed(values: seq<seq<byte>>, tail: seq<byte>)

  /** Reading the slots in turn; an absent field yields no octets. */
  function ReadAll(slots: seq<Slot>, b: seq<byte>): (r: Result<Parsed>)
    ensures r.Ok? ==> |r.value.values| == |slots|
    decreases slots
  {
    if slots == [] then Ok(Parsed([], b))
    else
      var n := if slots[0].flag == "1" then slots[0].n else 0;
      var first :- Read(n, b);
      var rest :- ReadAll(slots[1..], first.tail);
      Ok(Parsed([first.head] + rest.values, rest.tail))
  }

  /** Writing the values whose flag is set; their lengths are not checked. */
  function WriteAll(slots: seq<Slot>, values: seq<seq<byte>>): seq<byte>
    requires |values| == |slots|
    decreases slots
  {
    if slots == [] then []
    else (if slots[0].flag == "1" then values[0] else []) + WriteAll(slots[1..], values[1..])
  }

  /** Every value has the length its slot announces. */
  predicate Fit(slots: seq<Slot>, values: seq<seq<byte>>) {
    |values| == |slots|
    && forall i :: 0 <= i < |slots| ==> |values[i]| == if slots[i].flag == "1" then slots[i].n else 0
  }

  /** What stands under a clear flag is not written. */
  lemma {:induction false} WriteDropsAbsent(slots: seq<Slot>, v: seq<seq<byte>>, w: seq<seq<byte>>)
    requires |v| == |w| == |slots|
    requires forall i :: 0 <= i < |slots| && slots[i].flag == "1" ==> v[i] == w[i]
    ensures WriteAll(slots, v) == WriteAll(slots, w)
    decreases slots
  {
    if slots != [] {
      WriteDropsAbsent(slots[1..], v[1..], w[1..]);
    }
  }

  lemma {:induction false} ReadWritten(slots: seq<Slot>, values: seq<seq<byte>>, rest: seq<byte>)
    requires Fit(slots, values)
    ensures ReadAll(slots, WriteAll(slots, values) + rest) == Ok(Parsed(values, rest))
    decreases slots
  {
    if slots == [] {
      assert [] + rest == rest;
    } else {
      var tail := WriteAll(slots[1..], values[1..]) + rest;
      assert WriteAll(slots, values) + rest == values[0] + tail;
      ReadFront(values[0], tail);
      ReadWritten(slots[1..], values[1..], rest);
      assert [values[0]] + values[1..] == values;
    }
  }

  lemma {:induction false} WriteRead(slots: seq<Slot>, b: seq<byte>)
    requires ReadAll(slots, b).Ok?
    ensures var p := ReadAll(slots, b).value;
            Fit(slots, p.values) && WriteAll(slots, p.values) + p.tail == b
    decreases slots
  {
    if slots == [] {
      assert [] + b == b;
    } else {
      var n := if slots[0].flag == "1" then slots[0].n else 0;
      var first := Read(n, b).value;
      WriteRead(slots[1..], first.tail);
      var rest := ReadAll(slots[1..], first.tail).value;
      FitFront(slots, first.head, rest.values);
      assert ([first.head] + rest.values)[1..] == rest.values;
      assert first.head + (WriteAll(slots[1..], rest.values) + rest.tail) == b;
    }
  }

  lemma FitFront(slots: seq<Slot>, head: seq<byte>, rest: seq<seq<byte>>)
    requires slots != [] && Fit(slots[1..], rest)
    requires |head| == if slots[0].flag == "1" then slots[0].n else 0
    ensures Fit(slots, [head] + rest)
  {
    var v := [head] + rest;
    forall i | 0 <= i < |slots|
      ensures |v[i]| == if slots[i].flag == "1" then slots[i].n else 0
    {
      if i > 0 {
        assert v[i] == rest[i - 1] && slots[1..][i - 1] == slots[i];
      }
    }
  }

  lemma ReadFront(head: seq<byte>, tail: seq<byte>)
    ensures Read(|head|, head + tail) == Ok(Split(head, tail))
  {
    assert (head + tail)[..|head|] == head && (head + tail)[|head|..] == tail;
  }

  /** The two laws for a run that ends its buffer. */
  lemma ReadWhole(slots: seq<Slot>, values: seq<seq<byte>>)
    requires Fit(slots, values)
    ensures ReadAll(slots, WriteAll(slots, values)) == Ok(Parsed(values, []))
  {
    ReadWritten(slots, values, []);
    assert WriteAll(slots, values) + [] == WriteAll(slots, values);
  }

  lemma WriteWhole(slots: seq<Slot>, b: seq<byte>)
    requires ReadAll(slots, b).Ok? && ReadAll(slots, b).value.tail == []
    ensures var p := ReadAll(slots, b).value;
            Fit(slots, p.values) && WriteAll(slots, p.values) == b
  {
    WriteRead(slots, b);
    var p := ReadAll(slots, b).value;
    assert WriteAll(slots, p.values) + [] == WriteAll(slots, p.values);
  }
}
