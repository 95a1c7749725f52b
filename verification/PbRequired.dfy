/** Required fields: the decoder accepts a message exactly when it can read it to the end and each
    of its first 64 required fields occurs on the wire, in any order. */
module PbRequired {
  import opened Common
  import opened PbWire
  import opened PbSchema
  import opened PbEncode
  import opened PbDecode
  import opened PbMerge

  /** The decoder's state before the `n`th field on the wire. */
  function Nth(fields: seq<Field>, slots: seq<Slot>, s: seq<Byte>, n: nat): (r: Stepped)
    requires |fields| == |slots|
    ensures r.Next? ==> |r.slots| == |slots|
    decreases n
  {
    if n == 0 then Next(slots, {}, s)
    else if s == [] then Bad
    else
      match Step(fields, slots, {}, s)
      case Next(slots', _, rest) => Nth(fields, slots', rest, n - 1)
      case _ => Bad
  }

  predicate OccursAt(fields: seq<Field>, slots: seq<Slot>, s: seq<Byte>, tag: nat, n: nat)
    requires |fields| == |slots|
  {
    var r := Nth(fields, slots, s, n);
    r.Next? && var key := ReadVarint32(r.rest); key.Got? && key.value != 0 && key.value / 8 == tag
  }

  lemma StepMarks(fields: seq<Field>, slots: seq<Slot>, seen: set<nat>, s: seq<Byte>)
    requires |fields| == |slots|
    ensures var r := Step(fields, slots, seen, s);
            var e := Step(fields, slots, {}, s);
            && (r.Next? <==> e.Next?)
            && (r.Next? ==>
                  && r.slots == e.slots && r.rest == e.rest && ReadVarint32(s).Got? && ReadVarint32(s).value != 0
                  && var i := Find(fields, ReadVarint32(s).value / 8);
                     r.seen == if i < |fields| && fields[i].htype == Required then seen + {i} else seen)
  {
    hide ReadVarint32, DecSlot, Store, Skip, Find;
    var r := ReadVarint32(s);
    if r.Got? && r.value != 0 {
      assert Step(fields, slots, seen, s) == Record(fields, slots, seen, r.value / 8, r.value % 8, r.rest);
      assert Step(fields, slots, {}, s) == Record(fields, slots, {}, r.value / 8, r.value % 8, r.rest);
    }
  }

  /** A required field the scan has seen occurs on the wire. */
  lemma {:induction false} SeenOccurs(fields: seq<Field>, slots: seq<Slot>, seen: set<nat>, s: seq<Byte>, i: nat)
    returns (n: nat)
    requires |fields| == |slots| && i < |fields|
    requires var r := Scan(fields, slots, seen, s); r.Done? && i in r.seen && i !in seen
    ensures OccursAt(fields, slots, s, fields[i].tag, n)
    decreases |s|
  {
    hide ReadVarint32, Step;
    n := 0;
    if s != [] {
      StepMarks(fields, slots, seen, s);
      var r := Step(fields, slots, seen, s);
      if i !in r.seen {
        var m := SeenOccurs(fields, r.slots, r.seen, r.rest, i);
        assert Nth(fields, slots, s, m + 1) == Nth(fields, r.slots, r.rest, m);
        n := m + 1;
      }
    }
  }

  /** A required field that occurs on the wire has been seen when the scan ends. */
  lemma {:induction false} OccursSeen(fields: seq<Field>, slots: seq<Slot>, seen: set<nat>, s: seq<Byte>,
                                      i: nat, n: nat)
    requires Wf(fields) && |fields| == |slots| && i < |fields| && fields[i].htype == Required
    requires Scan(fields, slots, seen, s).Done? && OccursAt(fields, slots, s, fields[i].tag, n)
    ensures i in Scan(fields, slots, seen, s).seen
    decreases n
  {
    hide Step, WfField;
    assert s != [];
    StepMarks(fields, slots, seen, s);
    var r := Step(fields, slots, seen, s);
    if n == 0 {
      FindTag(fields, i);
      StepReads(fields, slots, seen, s);
      ScanSeen(fields, r.slots, r.seen, {}, r.rest);
    } else {
      OccursSeen(fields, r.slots, r.seen, r.rest, i, n - 1);
    }
  }

  lemma StepReads(fields: seq<Field>, slots: seq<Slot>, seen: set<nat>, s: seq<Byte>)
    requires |fields| == |slots|
    ensures Step(fields, slots, seen, s).End? ==> ReadVarint32(s).Got? && ReadVarint32(s).value == 0
  {
    hide ReadVarint32;
  }

  lemma FindTag(fields: seq<Field>, i: nat)
    requires Wf(fields) && i < |fields|
    ensures Find(fields, fields[i].tag) == i
  {
    hide WfField;
  }

  /** pb_decode_noinit succeeds exactly when the input can be read and each of the first 64 required
      fields occurs in it. */
  lemma DecodesExactlyWhenRequiredOccur(fields: seq<Field>, slots: seq<Slot>, s: seq<Byte>)
    requires Wf(fields) && |fields| == |slots|
    ensures DecodeNoInit(fields, slots, s).Got? <==>
            && Scan(fields, slots, {}, s).Done?
            && forall i: nat | i < |fields| && Checked(fields, i) ::
                 exists n: nat :: OccursAt(fields, slots, s, fields[i].tag, n)
  {
    hide Scan, WfField, OccursAt, RequiredBefore;
    var r := Scan(fields, slots, {}, s);
    if r.Done? {
      forall i: nat | i < |fields| && Checked(fields, i)
        ensures i in r.seen <==> exists n: nat :: OccursAt(fields, slots, s, fields[i].tag, n)
      {
        if i in r.seen {
          var n := SeenOccurs(fields, slots, {}, s, i);
        }
        if n: nat :| OccursAt(fields, slots, s, fields[i].tag, n) {
          OccursSeen(fields, slots, {}, s, i, n);
        }
      }
    }
  }

  /** Which fields are checked for: the required ones that fewer than 64 other required fields precede. */
  lemma FirstSixtyFour(fields: seq<Field>, i: nat)
    requires i < |fields|
    ensures Checked(fields, i) <==>
            && fields[i].htype == Required
            && |set j: nat | j < i && fields[j].htype == Required| < 64
  {
    RequiredCount(fields, i);
  }

  lemma {:induction false} RequiredCount(fields: seq<Field>, k: nat)
    requires k <= |fields|
    ensures RequiredBefore(fields, k) == |set j: nat | j < k && fields[j].htype == Required|
  {
    if k > 0 {
      RequiredCount(fields, k - 1);
      var before := set j: nat | j < k - 1 && fields[j].htype == Required;
      var all := set j: nat | j < k && fields[j].htype == Required;
      if fields[k - 1].htype == Required {
        assert all == before + {k - 1};
      } else {
        assert all == before;
      }
    }
  }
}
