/** The records of a directory block, as a list: lookup, insertion and removal on it. */
module DirRecords {

  type Byte = b: int | 0 <= b < 256

  const HEADER := 8
  const DIR_CSUM: Byte := 0xDE

  datatype Rec = Rec(inode: nat, len: nat, kind: Byte, name: seq<Byte>)

  /** Bytes that a record needs for a name, in steps of four. */
  function Room(nameLen: nat): (r: nat)
    ensures HEADER + nameLen <= r < HEADER + nameLen + 4 && r % 4 == 0
  {
    HEADER + nameLen + if nameLen % 4 != 0 then 4 - nameLen % 4 else 0
  }

  /** The inode of the first live record with this name; 0 if there is none. */
  function Lookup(recs: seq<Rec>, name: seq<Byte>): nat {
    if recs == [] then 0 else if recs[0].inode != 0 && recs[0].name == name then recs[0].inode else Lookup(recs[1..], name)
  }

  ghost predicate NoName(recs: seq<Rec>, name: seq<Byte>) { forall j :: 0 <= j < |recs| ==> recs[j].inode == 0 || recs[j].name != name }

  ghost predicate Distinct(recs: seq<Rec>) {
    forall i, j :: 0 <= i < j < |recs| && recs[i].inode != 0 && recs[j].inode != 0 ==> recs[i].name != recs[j].name
  }

  /** A record can take a name: it is dead and large enough, or has that much behind its own name. */
  predicate Fits(r: Rec, required: nat) {
    if r.inode == 0 then r.kind != DIR_CSUM && r.len >= required else r.len >= Room(|r.name|) + required
  }

  ghost predicate NoneFits(recs: seq<Rec>, required: nat) { forall i :: 0 <= i < |recs| ==> !Fits(recs[i], required) }

  /** A name put into record r: what stands there afterwards. */
  function Filled(r: Rec, x: Rec): seq<Rec> {
    if r.inode == 0 then [x.(len := r.len)]
    else if r.len >= Room(|r.name|) then [r.(len := Room(|r.name|)), x.(len := r.len - Room(|r.name|))]
    else [r]
  }

  function Inserted(recs: seq<Rec>, i: nat, x: Rec): seq<Rec>
    requires i < |recs|
  {
    recs[..i] + Filled(recs[i], x) + recs[i + 1..]
  }

  function Removed(recs: seq<Rec>, i: nat): seq<Rec>
    requires i < |recs|
  {
    if i == 0 then [recs[0].(inode := 0)] + recs[1..]
    else recs[..i - 1] + [recs[i - 1].(len := recs[i - 1].len + recs[i].len)] + recs[i + 1..]
  }

  function Total(recs: seq<Rec>): nat { if recs == [] then 0 else recs[0].len + Total(recs[1..]) }

  // ----- what the list says -----

  lemma {:induction false} LookupConcat(a: seq<Rec>, b: seq<Rec>, name: seq<Byte>)
    ensures Lookup(a + b, name) == if Lookup(a, name) != 0 then Lookup(a, name) else Lookup(b, name)
  {
    if a == [] {
      assert a + b == b;
    } else {
      assert (a + b)[1..] == a[1..] + b;
      LookupConcat(a[1..], b, name);
    }
  }

  lemma LookupOne(r: Rec, name: seq<Byte>)
    ensures Lookup([r], name) == if r.name == name then r.inode else 0
  {
    assert [r][1..] == [];
  }

  lemma LookupFilled(r: Rec, x: Rec, name: seq<Byte>, required: nat)
    requires Fits(r, required) && x.inode != 0
    ensures Lookup(Filled(r, x), name) == if r.inode != 0 && r.name == name then r.inode else if x.name == name then x.inode else 0
  {
    hide Lookup;
    if r.inode == 0 {
      LookupOne(x.(len := r.len), name);
    } else {
      var a, b := r.(len := Room(|r.name|)), x.(len := r.len - Room(|r.name|));
      assert Filled(r, x) == [a] + [b];
      LookupConcat([a], [b], name);
      LookupOne(a, name);
      LookupOne(b, name);
    }
  }

  lemma Around(recs: seq<Rec>, i: nat, name: seq<Byte>)
    requires i < |recs|
    ensures recs == recs[..i] + [recs[i]] + recs[i + 1..]
    ensures Lookup(recs, name) == if Lookup(recs[..i], name) != 0 then Lookup(recs[..i], name)
                                  else if recs[i].name == name && recs[i].inode != 0 then recs[i].inode else Lookup(recs[i + 1..], name)
  {
    hide Lookup;
    assert recs == recs[..i] + [recs[i]] + recs[i + 1..];
    LookupConcat(recs[..i] + [recs[i]], recs[i + 1..], name);
    LookupConcat(recs[..i], [recs[i]], name);
    LookupOne(recs[i], name);
  }

  /** An absent name is found after its insertion, and every other name as before. */
  lemma InsertedLookup(recs: seq<Rec>, i: nat, x: Rec, required: nat, name: seq<Byte>)
    requires i < |recs| && Fits(recs[i], required) && x.inode != 0 && Lookup(recs, x.name) == 0
    ensures Lookup(Inserted(recs, i, x), name) == if name == x.name then x.inode else Lookup(recs, name)
  {
    hide Lookup;
    Around(recs, i, name);
    var filled := Filled(recs[i], x);
    LookupConcat(recs[..i] + filled, recs[i + 1..], name);
    LookupConcat(recs[..i], filled, name);
    LookupFilled(recs[i], x, name, required);
  }

  lemma {:induction false} LookupIndex(recs: seq<Rec>, name: seq<Byte>) returns (i: nat)
    ensures i <= |recs| && (i < |recs| <==> Lookup(recs, name) != 0)
    ensures i < |recs| ==> recs[i].inode == Lookup(recs, name) && recs[i].name == name
    ensures forall j :: 0 <= j < i ==> recs[j].inode == 0 || recs[j].name != name
  {
    if recs == [] {
      i := 0;
    } else if recs[0].inode != 0 && recs[0].name == name {
      i := 0;
    } else {
      i := LookupIndex(recs[1..], name);
      i := i + 1;
    }
  }

  /** A name is found just when some live record has it. */
  lemma LookupIff(recs: seq<Rec>, name: seq<Byte>)
    ensures Lookup(recs, name) != 0 <==> exists i :: 0 <= i < |recs| && recs[i].inode != 0 && recs[i].name == name
  {
    var i := LookupIndex(recs, name);
  }

  lemma InsertedDistinct(recs: seq<Rec>, i: nat, x: Rec, required: nat)
    requires Distinct(recs) && i < |recs| && Fits(recs[i], required) && Lookup(recs, x.name) == 0
    ensures Distinct(Inserted(recs, i, x))
  {
    hide Lookup, Distinct, Fits, Room, NoName;
    var r := recs[i];
    if r.inode == 0 {
      Absent(recs, recs, i, x.name);
      Fewer(recs, i);
      OneMoreName(recs[..i], recs[i + 1..], x.(len := r.len));
    } else {
      FitsLive(r, required);
      var cut := recs[i := r.(len := Room(|r.name|))];
      var new_entry := x.(len := r.len - Room(|r.name|));
      SameNames(recs, cut);
      Absent(recs, cut, i + 1, x.name);
      OneMoreName(cut[..i + 1], cut[i + 1..], new_entry);
      assert cut == cut[..i + 1] + cut[i + 1..];
      assert Inserted(recs, i, x) == cut[..i + 1] + [new_entry] + cut[i + 1..];
    }
  }

  /** An absent name is absent on either side, also when lengths have changed. */
  lemma Absent(recs: seq<Rec>, s: seq<Rec>, i: nat, name: seq<Byte>)
    requires Lookup(recs, name) == 0 && |s| == |recs| && i <= |s|
    requires forall j :: 0 <= j < |s| ==> s[j].inode == recs[j].inode && s[j].name == recs[j].name
    ensures NoName(s[..i], name) && NoName(s[i..], name) && (i < |s| ==> NoName(s[i + 1..], name))
  {
    hide Lookup;
    LookupIff(recs, name);
  }

  lemma FitsLive(r: Rec, required: nat)
    requires Fits(r, required) && r.inode != 0
    ensures r.len >= Room(|r.name|)
  {
  }

  lemma Fewer(recs: seq<Rec>, i: nat)
    requires Distinct(recs) && i < |recs|
    ensures Distinct(recs[..i] + recs[i + 1..])
  {
    var s := recs[..i] + recs[i + 1..];
    assert forall j :: i <= j < |s| ==> s[j] == recs[j + 1];
  }

  lemma SameNames(recs: seq<Rec>, s: seq<Rec>)
    requires Distinct(recs) && |s| == |recs| && forall j :: 0 <= j < |s| ==> s[j].inode == recs[j].inode && s[j].name == recs[j].name
    ensures Distinct(s)
  {
  }

  lemma OneMoreName(a: seq<Rec>, b: seq<Rec>, x: Rec)
    requires Distinct(a + b)
    requires NoName(a, x.name) && NoName(b, x.name)
    ensures Distinct(a + [x] + b)
  {
    var t, s := a + b, a + [x] + b;
    assert forall j :: 0 <= j < |a| ==> s[j] == t[j] == a[j];
    assert forall j :: |a| < j < |s| ==> s[j] == t[j - 1] && s[j] == b[j - 1 - |a|];
  }

  /** The removed name is gone, and every other one is found as before. */
  lemma RemovedLookup(recs: seq<Rec>, i: nat, name: seq<Byte>)
    requires Distinct(recs) && i < |recs| && recs[i].inode != 0
    ensures Lookup(Removed(recs, i), name) == if name == recs[i].name then 0 else Lookup(recs, name)
  {
    hide Lookup;
    Around(recs, i, name);
    NoOther(recs, i);
    if i == 0 {
      var dead := recs[0].(inode := 0);
      LookupConcat([dead], recs[1..], name);
      LookupOne(dead, name);
      assert recs[..0] == [];
      LookupNone(name);
    } else {
      var grown := recs[i - 1].(len := recs[i - 1].len + recs[i].len);
      LookupConcat(recs[..i - 1] + [grown], recs[i + 1..], name);
      LookupConcat(recs[..i - 1], [grown], name);
      LookupOne(grown, name);
      assert recs[..i] == recs[..i - 1] + [recs[i - 1]];
      LookupConcat(recs[..i - 1], [recs[i - 1]], name);
      LookupOne(recs[i - 1], name);
    }
  }

  lemma LookupNone(name: seq<Byte>)
    ensures Lookup([], name) == 0
  {
  }

  lemma NoOther(recs: seq<Rec>, i: nat)
    requires Distinct(recs) && i < |recs| && recs[i].inode != 0
    ensures Lookup(recs[..i], recs[i].name) == 0 && Lookup(recs[i + 1..], recs[i].name) == 0
  {
    hide Lookup;
    LookupIff(recs[..i], recs[i].name);
    LookupIff(recs[i + 1..], recs[i].name);
  }

  lemma RemovedDistinct(recs: seq<Rec>, i: nat)
    requires Distinct(recs) && i < |recs|
    ensures Distinct(Removed(recs, i))
  {
    var s := Removed(recs, i);
    if i > 0 {
      assert forall j :: 0 <= j < i - 1 ==> s[j] == recs[j];
      assert s[i - 1].name == recs[i - 1].name && s[i - 1].inode == recs[i - 1].inode;
      assert forall j :: i <= j < |s| ==> s[j] == recs[j + 1];
    }
  }

  /** Removing an inserted name leaves every lookup as it was before both. */
  lemma RemoveUndoesInsert(recs: seq<Rec>, i: nat, x: Rec, required: nat, k: nat, name: seq<Byte>)
    requires Distinct(recs) && i < |recs| && Fits(recs[i], required) && x.inode != 0 && Lookup(recs, x.name) == 0
    requires k < |Inserted(recs, i, x)| && Inserted(recs, i, x)[k].inode != 0 && Inserted(recs, i, x)[k].name == x.name
    ensures Lookup(Removed(Inserted(recs, i, x), k), name) == Lookup(recs, name)
    ensures Distinct(Removed(Inserted(recs, i, x), k))
  {
    hide Lookup;
    RemovedDistinct(Inserted(recs, i, x), k) by { InsertedDistinct(recs, i, x, required); }
    InsertedDistinct(recs, i, x, required);
    InsertedLookup(recs, i, x, required, name);
    RemovedLookup(Inserted(recs, i, x), k, name);
  }
}
