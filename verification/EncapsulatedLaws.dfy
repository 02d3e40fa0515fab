/**
 Laws of the Encapsulated header: what the sort determines, that parsing undoes
 printing, and where the computed offsets lie.
 */
module EncapsulatedLaws {
  import opened Octets
  import opened Numerals
  import opened Text
  import opened Encapsulated

  // ----- What the sort determines -----

  ghost predicate Increasing(list: seq<Entity>, m: Offsets) {
    forall i, j :: 0 <= i < j < |list| ==> m.At(list[i]) < m.At(list[j])
  }

  /** No two entities that are present share an offset. */
  ghost predicate NoTies(m: Offsets) {
    forall e, f: Entity :: e != f && m.At(e) >= 0 ==> m.At(e) != m.At(f)
  }

  /** The index of the first present entity. */
  function FirstPresent(order: seq<Entity>, m: Offsets, from: nat): (k: nat)
    requires from <= |order|
    ensures from <= k <= |order|
    ensures forall i :: from <= i < k ==> m.At(order[i]) < 0
    ensures k < |order| ==> m.At(order[k]) >= 0
    decreases |order| - from
  {
    if from == |order| || m.At(order[from]) >= 0 then from else FirstPresent(order, m, from + 1)
  }

  lemma {:induction false} PresentFrom(order: seq<Entity>, m: Offsets, k: nat)
    requires k <= |order|
    requires forall i :: 0 <= i < k ==> m.At(order[i]) < 0
    requires forall i :: k <= i < |order| ==> m.At(order[i]) >= 0
    ensures Present(order, m) == order[k..]
    decreases k
  {
    if k == 0 {
      AllPresent(order, m);
      assert order[0..] == order;
    } else {
      var rest := order[1..];
      PresentFrom(rest, m, k - 1);
      assert rest[k - 1..] == order[k..];
    }
  }

  /** In a sorted list the absent entities come first, the present ones after them. */
  lemma PresentAtEnd(order: seq<Entity>, m: Offsets)
    requires Ordered(order, m)
    ensures |Present(order, m)| <= |order|
    ensures var k := |order| - |Present(order, m)|;
      Present(order, m) == order[k..] && forall i :: 0 <= i < k ==> m.At(order[i]) < 0
  {
    hide Present;
    PresentFrom(order, m, FirstPresent(order, m, 0));
  }

  lemma {:induction false} AllPresent(list: seq<Entity>, m: Offsets)
    requires forall i :: 0 <= i < |list| ==> m.At(list[i]) >= 0
    ensures Present(list, m) == list
  {
    if list != [] {
      AllPresent(list[1..], m);
      assert list == [list[0]] + list[1..];
    }
  }

  /** A list in strictly increasing offset order is determined by its members. */
  lemma {:induction false} IncreasingUnique(a: seq<Entity>, b: seq<Entity>, m: Offsets)
    requires Increasing(a, m) && Increasing(b, m)
    requires forall e :: e in a <==> e in b
    ensures a == b
  {
    if a == [] {
      NoMembers(b);
    } else {
      assert a[0] in b;
      assert b[0] in a;
      SameFirst(a, b, m);
      forall e
        ensures e in a[1..] <==> e in b[1..]
      {
        TailMembers(a, m, e);
        TailMembers(b, m, e);
      }
      IncreasingUnique(a[1..], b[1..], m);
      assert a == [a[0]] + a[1..] && b == [b[0]] + b[1..];
    }
  }

  lemma SameFirst(a: seq<Entity>, b: seq<Entity>, m: Offsets)
    requires Increasing(a, m) && Increasing(b, m)
    requires a != [] && b != [] && a[0] in b && b[0] in a
    ensures a[0] == b[0]
  {
    var i :| 0 <= i < |b| && b[i] == a[0];
    var j :| 0 <= j < |a| && a[j] == b[0];
  }

  lemma NoMembers(b: seq<Entity>)
    ensures (forall e :: e !in b) ==> b == []
  {
    if b != [] {
      assert b[0] in b;
    }
  }

  lemma TailMembers(a: seq<Entity>, m: Offsets, e: Entity)
    requires Increasing(a, m) && a != []
    ensures e in a[1..] <==> e in a && e != a[0]
  {
  }

  /**
   When no two present entities share an offset, the sort fixes which entities
   are read and printed and in which order: it is the increasing list.
   */
  lemma SortDetermines(order: seq<Entity>, m: Offsets, list: seq<Entity>)
    requires Sorts(order, m)
    requires Increasing(list, m)
    requires forall e: Entity :: e in list <==> m.At(e) >= 0
    ensures Present(order, m) == list
  {
    hide Present;
    assert Ordered(order, m);
    PresentAtEnd(order, m);
    var present := Present(order, m);
    OrderedSuffix(order, m, |order| - |present|);
    assert forall e: Entity :: e in present <==> m.At(e) >= 0;
    hide Sorts;
    OrderedIncreasing(present, list, m);
    IncreasingUnique(present, list, m);
  }

  lemma OrderedSuffix(order: seq<Entity>, m: Offsets, k: nat)
    requires Ordered(order, m) && k <= |order|
    ensures Ordered(order[k..], m)
  {
  }

  lemma OrderedIncreasing(present: seq<Entity>, list: seq<Entity>, m: Offsets)
    requires Ordered(present, m) && Increasing(list, m) && forall e :: e in present ==> e in list
    ensures Increasing(present, m)
  {
    forall i, j | 0 <= i < j < |present|
      ensures m.At(present[i]) < m.At(present[j])
    {
      MembersDiffer(list, m, present[i], present[j]);
    }
  }

  lemma MembersDiffer(list: seq<Entity>, m: Offsets, e: Entity, f: Entity)
    requires Increasing(list, m) && e in list && f in list && e != f
    ensures m.At(e) != m.At(f)
  {
    var i :| 0 <= i < |list| && list[i] == e;
    var j :| 0 <= j < |list| && list[j] == f;
    assert if i < j then m.At(e) < m.At(f) else m.At(f) < m.At(e);
  }

  // ----- Printing and parsing -----

  lemma NameText(e: Entity)
    ensures Name(e) != "" && Trimmed(Name(e)) && Free(Name(e), ",") && Free(Name(e), "=")
    ensures Lookup(Name(e)) == Some(e)
  {
  }

  lemma EntryTrimmed(e: Entity, offset: nat)
    ensures EntryText(e, offset) != "" && Trimmed(EntryText(e, offset)) && Free(EntryText(e, offset), ",")
    ensures Pieces(EntryText(e, offset), "=") == [Name(e), Itoa(offset)]
    ensures Trim(Itoa(offset)) == Itoa(offset)
  {
    NameText(e);
    PrintValue(offset, 10);
    NumeralText(Itoa(offset), 10);
    EntryShape(Name(e), Itoa(offset));
  }

  lemma EntryShape(name: string, digits: string)
    requires name != "" && Trimmed(name) && Free(name, ",") && Free(name, "=")
    requires digits != "" && Trimmed(digits) && Free(digits, ",") && Free(digits, "=")
    ensures var entry := name + "=" + digits;
      entry != "" && Trimmed(entry) && Free(entry, ",") && Pieces(entry, "=") == [name, digits]
    ensures Trim(digits) == digits
  {
    TrimNothing(digits);
    hide Trim, Pieces;
    var entry := name + "=" + digits;
    assert entry[0] == name[0] && entry[|entry| - 1] == digits[|digits| - 1];
    FirstPiece(name, '=', digits, "=");
    FirstPiece(digits, '=', "", "=");
  }

  /** An item, with or without its blank, parses to its entry. */
  lemma ItemParsedExact(m: Offsets, e: Entity, offset: nat, blank: string)
    requires blank == "" || blank == " "
    ensures ItemParsed(m, blank + EntryText(e, offset)) == (m.With(e, offset), true)
  {
    hide EntryText, Trim, Pieces, Atoi, Lookup, Name, Print;
    EntryTrimmed(e, offset);
    var entry := EntryText(e, offset);
    TrimExact(blank, entry, "");
    assert blank + entry + "" == blank + entry;
    NameText(e);
    TrimNothing(Name(e));
    AtoiRoundTrip(offset);
  }

  /** The entries of `m` for the members of `list`, on top of `base`. */
  function Entered(base: Offsets, list: seq<Entity>, m: Offsets): (r: Offsets)
    ensures forall e: Entity :: r.At(e) == if e in list then m.At(e) else base.At(e)
  {
    if list == [] then base
    else
      var last := list[|list| - 1];
      assert list == list[..|list| - 1] + [last];
      Entered(base, list[..|list| - 1], m).With(last, m.At(last))
  }

  lemma {:induction false} ItemsParsedExact(base: Offsets, list: seq<Entity>, m: Offsets)
    requires forall i :: 0 <= i < |list| ==> m.At(list[i]) >= 0
    ensures ItemsParsed(base, Items(list, m)) == (Entered(base, list, m), true)
  {
    hide ItemParsed, EntryText;
    if list != [] {
      var n := |list| - 1;
      var rest := list[..n];
      ItemsParsedExact(base, rest, m);
      assert Items(list, m)[..n] == Items(rest, m);
      ItemParsedExact(Entered(base, rest, m), list[n], m.At(list[n]), if n == 0 then "" else " ");
    }
  }

  lemma ItemShape(list: seq<Entity>, m: Offsets, i: nat)
    requires i < |list| && forall k :: 0 <= k < |list| ==> m.At(list[k]) >= 0
    ensures var item := Items(list, m)[i];
      && item != "" && Free(item, [','])
      && !IsSpace(item[|item| - 1])
      && (i == 0 ==> !IsSpace(item[0]))
  {
    EntryTrimmed(list[i], m.At(list[i]));
    hide EntryText;
  }

  lemma ListTrimmed(list: seq<Entity>, m: Offsets)
    requires list != [] && forall i :: 0 <= i < |list| ==> m.At(list[i]) >= 0
    ensures Trimmed(ListText(list, m))
    ensures Pieces(ListText(list, m), ",") == Items(list, m)
  {
    hide EntryText, Pieces, Items, Join;
    var items := Items(list, m);
    forall i | 0 <= i < |items|
      ensures items[i] != "" && Free(items[i], [','])
    {
      ItemShape(list, m, i);
    }
    ItemShape(list, m, 0);
    ItemShape(list, m, |list| - 1);
    JoinEnds(items, ',');
    PiecesOfJoin(items, ',');
  }

  lemma {:induction false} JoinEnds(items: seq<string>, d: char)
    requires items != [] && forall i :: 0 <= i < |items| ==> items[i] != ""
    ensures Join(items, d) != ""
    ensures Join(items, d)[0] == items[0][0]
    ensures var last := items[|items| - 1]; Join(items, d)[|Join(items, d)| - 1] == last[|last| - 1]
  {
    if |items| > 1 {
      JoinEnds(items[1..], d);
    }
  }

  predicate AnyPresent(m: Offsets) {
    m.nullBody >= 0 || m.optBody >= 0 || m.reqBody >= 0 || m.reqHdr >= 0 || m.resBody >= 0 || m.resHdr >= 0
  }

  function OrAbsent(offset: int): int {
    if offset >= 0 then offset else -1
  }

  /**
   The offsets a reader of the printed header should end up with: what is
   present is kept, the rest is -1; nothing at all reads as null-body=0.
   */
  function Restored(m: Offsets): Offsets {
    if !AnyPresent(m) then FRESH.With(NullBody, 0)
    else Offsets(OrAbsent(m.nullBody), OrAbsent(m.optBody), OrAbsent(m.reqBody),
                 OrAbsent(m.reqHdr), OrAbsent(m.resBody), OrAbsent(m.resHdr))
  }

  lemma RestoredAt(m: Offsets, e: Entity)
    ensures m.At(e) >= 0 ==> AnyPresent(m)
    ensures AnyPresent(m) ==> Restored(m).At(e) == OrAbsent(m.At(e))
  {
  }

  lemma SameOffsets(a: Offsets, b: Offsets)
    requires forall e: Entity :: a.At(e) == b.At(e)
    ensures a == b
  {
    assert a.At(NullBody) == b.At(NullBody) && a.At(OptBody) == b.At(OptBody);
    assert a.At(ReqBody) == b.At(ReqBody) && a.At(ReqHdr) == b.At(ReqHdr);
    assert a.At(ResBody) == b.At(ResBody) && a.At(ResHdr) == b.At(ResHdr);
  }

  /**
   Parsing the printed header into a fresh one restores every entry that is
   present and leaves the others at -1, in whatever order ties were printed;
   from a header with nothing present it restores null-body=0.
   */
  lemma ParseUndoesPrint(order: seq<Entity>, m: Offsets)
    requires Sorts(order, m)
    ensures ListParsed(FRESH, EncapsulatedText(order, m)) == (Restored(m), true)
  {
    var list := Present(order, m);
    if list == [] {
      assert forall e: Entity :: e in order && m.At(e) < 0;
      assert m.At(NullBody) < 0 && m.At(OptBody) < 0 && m.At(ReqBody) < 0;
      assert m.At(ReqHdr) < 0 && m.At(ResBody) < 0 && m.At(ResHdr) < 0;
      NothingPresent();
    } else {
      PresentParsed(list, m);
      EnteredIsRestored(order, m);
    }
  }

  lemma PresentParsed(list: seq<Entity>, m: Offsets)
    requires list != [] && forall i :: 0 <= i < |list| ==> m.At(list[i]) >= 0
    ensures ListParsed(FRESH, ListText(list, m)) == (Entered(FRESH, list, m), true)
  {
    ListTrimmed(list, m);
    TrimNothing(ListText(list, m));
    ItemsParsedExact(FRESH, list, m);
  }

  lemma EnteredIsRestored(order: seq<Entity>, m: Offsets)
    requires (forall e: Entity :: e in order) && Present(order, m) != []
    ensures Entered(FRESH, Present(order, m), m) == Restored(m)
  {
    var list := Present(order, m);
    RestoredAt(m, list[0]);
    forall e: Entity
      ensures Entered(FRESH, list, m).At(e) == Restored(m).At(e)
    {
      assert e in order && (e in list <==> m.At(e) >= 0);
      assert FRESH.At(e) == -1;
      RestoredAt(m, e);
    }
    SameOffsets(Entered(FRESH, list, m), Restored(m));
  }

  lemma NothingPresent()
    ensures ListParsed(FRESH, "null-body=0") == (FRESH.With(NullBody, 0), true)
  {
    var m := FRESH.With(NullBody, 0);
    assert Itoa(0) == "0";
    var entry := EntryText(NullBody, 0);
    assert entry == "null-body=0";
    EntryTrimmed(NullBody, 0);
    TrimNothing(entry);
    FirstPiece(entry, ',', "", ",");
    ItemParsedExact(FRESH, NullBody, 0, "");
    assert "" + entry == entry;
    var items := [entry];
    assert items[..0] == [];
  }

  lemma {:induction false} JoinFree(items: seq<string>, d: char, delims: string)
    requires items != [] && d !in delims && forall i :: 0 <= i < |items| ==> Free(items[i], delims)
    ensures Free(Join(items, d), delims)
  {
    if |items| > 1 {
      JoinFree(items[1..], d, delims);
    }
  }

  /** The printed header stays on its line, holds no colon and needs no trimming. */
  lemma PrintedShape(order: seq<Entity>, m: Offsets)
    ensures Free(EncapsulatedText(order, m), ":\r\n") && Trimmed(EncapsulatedText(order, m))
  {
    var list := Present(order, m);
    if list != [] {
      var items := Items(list, m);
      forall i | 0 <= i < |items|
        ensures Free(items[i], ":\r\n")
      {
        EntryFree(list[i], m.At(list[i]));
      }
      JoinFree(items, ',', ":\r\n");
      ListTrimmed(list, m);
    }
  }

  lemma NameFree(e: Entity)
    ensures Free(Name(e), ":\r\n")
  {
  }

  lemma EntryFree(e: Entity, offset: nat)
    ensures Free(EntryText(e, offset), ":\r\n")
  {
    hide Name, Print;
    NameFree(e);
    PrintValue(offset, 10);
    NumeralText(Itoa(offset), 10);
  }

  // ----- Layout -----

  /** The sections of the payload that are not empty, in sending order. */
  function Filled(p: Payload): seq<Entity> {
    (if p.reqHeader != "" then [ReqHdr] else []) +
    (if p.reqBody != "" then [ReqBody] else []) +
    (if p.resHeader != "" then [ResHdr] else []) +
    (if p.resBody != "" then [ResBody] else [])
  }

  /** The increasing list of entities that `update_encapsulated` enters into a fresh header. */
  function Laid(p: Payload): seq<Entity> {
    Filled(p) + if LastStart(p) == 0 then [NullBody] else []
  }

  /**
   On a fresh header the sections that are not empty get the prefix sums of the
   content lengths; null-body follows at the end exactly when the last section
   starts at 0; nothing else is entered, and no two entries share an offset.
   */
  lemma Layout(p: Payload)
    requires Total(p) < 0x8000_0000
    ensures var m := Updated(FRESH, p);
      && (forall e :: e in Filled(p) ==> m.At(e) == Before(p, e))
      && (m.nullBody == if LastStart(p) == 0 then Total(p) else -1)
      && (forall e: Entity :: e in Laid(p) <==> m.At(e) >= 0)
      && Increasing(Laid(p), m)
      && NoTies(m)
  {
    LaidMembers(p);
    LaidIncreasing(p);
    var m := Updated(FRESH, p);
    forall e, f: Entity | e != f && m.At(e) >= 0
      ensures m.At(e) != m.At(f)
    {
      if m.At(f) >= 0 {
        MembersDiffer(Laid(p), m, e, f);
      }
    }
  }

  lemma FilledMembers(p: Payload)
    ensures forall e: Entity :: e in Filled(p) <==> Section(p, e) != ""
  {
  }

  /** The offset `update_encapsulated` leaves for `e` in a fresh header. */
  function FreshOffset(p: Payload, e: Entity): int {
    if Section(p, e) != "" then Before(p, e)
    else if e == NullBody && LastStart(p) == 0 then Total(p)
    else -1
  }

  lemma UpdatedFresh(p: Payload)
    requires Total(p) < 0x8000_0000
    ensures forall e: Entity :: Updated(FRESH, p).At(e) == FreshOffset(p, e)
  {
    assert ToWord(LastStart(p)) == LastStart(p);
  }

  lemma LaidMembers(p: Payload)
    requires Total(p) < 0x8000_0000
    ensures var m := Updated(FRESH, p);
      && (forall e :: e in Filled(p) ==> m.At(e) == Before(p, e))
      && (m.nullBody == if LastStart(p) == 0 then Total(p) else -1)
      && (forall e: Entity :: e in Laid(p) <==> m.At(e) >= 0)
  {
    FilledMembers(p);
    UpdatedFresh(p);
    assert Updated(FRESH, p).At(NullBody) == Updated(FRESH, p).nullBody;
    hide Filled, Updated;
    assert forall e: Entity :: e in Laid(p) <==> e in Filled(p) || (e == NullBody && LastStart(p) == 0);
  }

  /** Position in sending order, null-body last. */
  function SendRank(e: Entity): nat {
    match e
    case ReqHdr => 0
    case ReqBody => 1
    case ResHdr => 2
    case ResBody => 3
    case _ => 4
  }

  lemma LaidRanked(p: Payload)
    ensures forall i, j :: 0 <= i < j < |Laid(p)| ==> SendRank(Laid(p)[i]) < SendRank(Laid(p)[j])
  {
  }

  lemma RankedOffsets(p: Payload, e: Entity, f: Entity)
    requires Total(p) < 0x8000_0000
    requires e in Laid(p) && f in Laid(p) && SendRank(e) < SendRank(f)
    ensures FreshOffset(p, e) < FreshOffset(p, f)
  {
    FilledMembers(p);
    assert Section(p, e) != "";
  }

  lemma LaidIncreasing(p: Payload)
    requires Total(p) < 0x8000_0000
    ensures Increasing(Laid(p), Updated(FRESH, p))
  {
    UpdatedFresh(p);
    LaidRanked(p);
    hide Updated, Laid, FreshOffset;
    var list := Laid(p);
    forall i, j | 0 <= i < j < |list|
      ensures FreshOffset(p, list[i]) < FreshOffset(p, list[j])
    {
      RankedOffsets(p, list[i], list[j]);
    }
  }

  /** Hence the printed header does not depend on how the sort orders ties. */
  lemma PrintedOrderFixed(p: Payload, order: seq<Entity>, other: seq<Entity>)
    requires Total(p) < 0x8000_0000
    requires Sorts(order, Updated(FRESH, p)) && Sorts(other, Updated(FRESH, p))
    ensures Present(order, Updated(FRESH, p)) == Laid(p)
    ensures EncapsulatedText(order, Updated(FRESH, p)) == EncapsulatedText(other, Updated(FRESH, p))
  {
    Layout(p);
    SortDetermines(order, Updated(FRESH, p), Laid(p));
    SortDetermines(other, Updated(FRESH, p), Laid(p));
  }

  // ----- Offsets of any payload -----

  /** `r` is `n` as an `int` stores it. */
  predicate Wraps(r: int, n: nat) {
    -0x8000_0000 <= r < 0x8000_0000 && (n - r) % 0x1_0000_0000 == 0
  }

  /**
   Whatever was stored before: each section that is not empty gets the length of those before it, in
   sending order; an empty one and opt-body keep what they had.  Null-body gets the whole length if
   the last section starts at a multiple of 2^32, and keeps what it had otherwise.
   */
  lemma UpdatedAlways(m: Offsets, p: Payload)
    ensures
      var u := Updated(m, p);
      var a, b, c, d := |p.reqHeader|, |p.reqBody|, |p.resHeader|, |p.resBody|;
      var last := if d > 0 then a + b + c else if c > 0 then a + b else if b > 0 then a else 0;
      && (if a > 0 then u.reqHdr == 0 else u.reqHdr == m.reqHdr)
      && (if b > 0 then Wraps(u.reqBody, a) else u.reqBody == m.reqBody)
      && (if c > 0 then Wraps(u.resHdr, a + b) else u.resHdr == m.resHdr)
      && (if d > 0 then Wraps(u.resBody, a + b + c) else u.resBody == m.resBody)
      && u.optBody == m.optBody
      && (if last % 0x1_0000_0000 == 0 then Wraps(u.nullBody, a + b + c + d) else u.nullBody == m.nullBody)
  {
    forall n: nat
      ensures Wraps(ToInt32(n), n)
    {
      Conversions(n);
    }
    Conversions(LastStart(p));
    hide ToInt32;
  }

  // ----- Names and items -----

  /** The names of section 4.4.1 of RFC 3507, and no others. */
  lemma NameTable(name: string)
    ensures Lookup("req-hdr") == Some(ReqHdr) && Lookup("req-body") == Some(ReqBody)
    ensures Lookup("res-hdr") == Some(ResHdr) && Lookup("res-body") == Some(ResBody)
    ensures Lookup("opt-body") == Some(OptBody) && Lookup("null-body") == Some(NullBody)
    ensures name !in {"req-hdr", "req-body", "res-hdr", "res-body", "opt-body", "null-body"} ==> Lookup(name) == None
  {
  }

  lemma NamesOrdered()
    ensures Less("null-body", "opt-body") && Less("opt-body", "req-body") && Less("req-body", "req-hdr")
    ensures Less("req-hdr", "res-body") && Less("res-body", "res-hdr")
  {
    FirstDifference("req-", 'b', "ody", 'h', "dr");
    assert "req-" + ['b'] + "ody" == "req-body" && "req-" + ['h'] + "dr" == "req-hdr";
    FirstDifference("re", 'q', "-hdr", 's', "-body");
    assert "re" + ['q'] + "-hdr" == "req-hdr" && "re" + ['s'] + "-body" == "res-body";
    FirstDifference("res-", 'b', "ody", 'h', "dr");
    assert "res-" + ['b'] + "ody" == "res-body" && "res-" + ['h'] + "dr" == "res-hdr";
  }

  lemma {:induction false} RankedNames(e: Entity, f: Entity)
    requires KeyRank(e) < KeyRank(f)
    ensures Less(Name(e), Name(f))
    decreases KeyRank(f)
  {
    hide Less;
    NamesOrdered();
    var before := ENTITIES[KeyRank(f) - 1];
    assert KeyRank(before) == KeyRank(f) - 1 && Less(Name(before), Name(f));
    if before != e {
      RankedNames(e, before);
      LessOrder(Name(e), Name(before), Name(f));
    }
  }

  /** The entities are ranked as their names are ordered. */
  lemma RankedByName(e: Entity, f: Entity)
    ensures KeyRank(e) < KeyRank(f) <==> Less(Name(e), Name(f))
  {
    LessOrder(Name(e), Name(f), "");
    LessOrder(Name(f), Name(e), "");
    hide Less, Name;
    if KeyRank(e) < KeyRank(f) {
      RankedNames(e, f);
    } else if KeyRank(f) < KeyRank(e) {
      RankedNames(f, e);
    }
  }

  lemma OneEquals(name: string, value: string)
    requires Free(name, "=") && Free(value, "=")
    ensures Pieces(name + "=" + value, "=") == [name, value]
  {
    hide Pieces;
    FirstPiece(name, '=', value, "=");
    FirstPiece(value, '=', "", "=");
  }

  /**
   An item is a name and a value around one equals sign, with white space anywhere: the offset of a
   known name is set, an unknown name is ignored.  Any other item is reported, and sets nothing.
   */
  lemma ItemRead(m: Offsets, name: string, value: string, before: string, after: string)
    requires Free(name, "=") && Free(value, "=") && Trimmed(name + "=" + value)
    requires Spaces(before) && Spaces(after)
    ensures ItemParsed(m, before + (name + "=" + value) + after) ==
            (if Lookup(Trim(name)).Some? then m.With(Lookup(Trim(name)).value, Atoi(Trim(value))) else m, true)
  {
    TrimExact(before, name + "=" + value, after);
    hide Trim, Pieces, Lookup, Atoi;
    OneEquals(name, value);
  }

  lemma ItemMalformed(m: Offsets, item: string, i: nat, j: nat)
    ensures Free(item, "=") ==> ItemParsed(m, item) == (m, false)
    ensures i < j < |Trim(item)| && Trim(item)[i] == Trim(item)[j] == '=' ==> ItemParsed(m, item) == (m, false)
  {
    var t := Trim(item);
    hide Trim, Pieces;
    if Free(item, "=") {
      TrimPart(item);
      FirstPiece(t, '=', "", "=");
    }
    if i < j < |t| && t[i] == t[j] == '=' {
      TwoEquals(t, i, j);
    }
  }

  lemma TrimPart(s: string)
    ensures Free(s, "=") ==> Free(Trim(s), "=")
  {
    hide TrimLeft, TrimRight;
  }

  lemma TwoEquals(t: string, i: nat, j: nat)
    requires i < j < |t| && t[i] == t[j] == '='
    ensures |Pieces(t, "=")| > 2
  {
    hide Pieces;
    var k := FindFirstOf(t, "=", 0);
    assert k <= i;
    assert t == t[..k] + ['='] + t[k + 1..];
    FirstPiece(t[..k], '=', t[k + 1..], "=");
    assert t[k + 1..][j - k - 1] == '=';
    ManyPieces(t[k + 1..], '=');
  }

  /** Setting one offset leaves the others. */
  lemma WithAt(m: Offsets, e: Entity, offset: int, f: Entity)
    ensures m.With(e, offset).At(f) == if f == e then offset else m.At(f)
  {
  }

  /** Items count one after another: a later one for the same entity wins. */
  lemma LaterItem(m: Offsets, list: string, item: string)
    requires list != "" && Trimmed(list) && item != "" && !IsSpace(item[|item| - 1]) && Free(item, ",")
    ensures
      var before := ListParsed(m, list);
      var last := ItemParsed(before.0, item);
      ListParsed(m, list + "," + item) == (last.0, before.1 && last.1)
  {
    TrimNothing(list);
    TrimNothing(list + "," + item);
    hide Trim, Pieces, ItemParsed;
    PiecesAppend(list, ',', item);
    var items := Pieces(list, ",");
    assert (items + [item])[..|items|] == items;
  }

  lemma {:induction false} PiecesAppend(list: string, d: char, item: string)
    requires Free(item, [d])
    ensures Pieces(list + [d] + item, [d]) == Pieces(list, [d]) + [item]
    decreases |list|
  {
    hide Pieces;
    var k := FindFirstOf(list, [d], 0);
    if k == |list| {
      FirstPiece(list, d, item, [d]);
      FirstPiece(item, d, "", [d]);
    } else {
      var rest := list[k + 1..];
      assert list == list[..k] + [d] + rest;
      assert list + [d] + item == list[..k] + [d] + (rest + [d] + item);
      FirstPiece(list[..k], d, rest, [d]);
      FirstPiece(list[..k], d, rest + [d] + item, [d]);
      PiecesAppend(rest, d, item);
    }
  }

  lemma OneItemParsed(m: Offsets, item: string)
    ensures ItemsParsed(m, [item]) == ItemParsed(m, item)
  {
    hide ItemParsed;
    assert [item][..0] == [];
  }

  lemma OneItem(m: Offsets, item: string)
    requires Trimmed(item) && Free(item, ",")
    ensures ListParsed(m, item) == ItemParsed(m, item)
  {
    hide Trim, Pieces, ItemParsed, ItemsParsed;
    TrimNothing(item);
    FirstPiece(item, ',', "", ",");
    OneItemParsed(m, item);
  }

  lemma PlainItem(m: Offsets, blank: string, name: string, value: string, n: nat)
    requires Free(name, "=") && Trimmed(name) && name != "" && value == Itoa(n) && (blank == "" || blank == " ")
    ensures ItemParsed(m, blank + (name + "=" + value)) ==
            (if Lookup(name).Some? then m.With(Lookup(name).value, n) else m, true)
  {
    PrintValue(n, 10);
    NumeralText(value, 10);
    AtoiRoundTrip(n);
    TrimNothing(name);
    TrimNothing(value);
    hide Trim, Lookup, Atoi, Print, ItemParsed;
    var item := name + "=" + value;
    assert item[0] == name[0] && item[|item| - 1] == value[|value| - 1];
    ItemRead(m, name, value, blank, "");
    assert blank + item + "" == blank + item;
  }

  lemma NextItem(before: Offsets, list: string, name: string, value: string, n: nat, after: Offsets)
    requires list != "" && Trimmed(list) && ListParsed(FRESH, list) == (before, true)
    requires name != "" && Trimmed(name) && Free(name, "=") && Free(name, ",") && value == Itoa(n)
    requires after == if Lookup(name).Some? then before.With(Lookup(name).value, n) else before
    ensures ListParsed(FRESH, list + "," + (" " + (name + "=" + value))) == (after, true)
    ensures Trimmed(list + "," + (" " + (name + "=" + value)))
  {
    hide ListParsed, ItemParsed, Lookup, Print, Trim, Value, IsSpace, IsDigit;
    PrintValue(n, 10);
    NumeralText(value, 10);
    var item := " " + (name + "=" + value);
    assert item[|item| - 1] == value[|value| - 1];
    PlainItem(before, " ", name, value, n);
    ItemFree(name, value);
    LaterItem(FRESH, list, item);
    var all := list + "," + item;
    assert all[0] == list[0] && all[|all| - 1] == value[|value| - 1];
  }

  lemma ItemFree(name: string, value: string)
    requires Free(name, ",") && Free(value, ",")
    ensures Free(" " + (name + "=" + value), ",")
  {
  }

  /** A list as section 4.4.1 of RFC 3507 shows one. */
  lemma ListExample()
    ensures ListParsed(FRESH, "req-hdr=0, res-hdr=137, res-body=296") == (Offsets(-1, -1, -1, 0, 296, 137), true)
  {
    hide ListParsed, ItemParsed, Lookup, Print;
    NameTable("");
    ExampleNumerals();
    FirstItem();
    var m := FRESH.With(ReqHdr, 0);
    NextItem(m, "req-hdr=0", "res-hdr", "137", 137, m.With(ResHdr, 137));
    assert "req-hdr=0" + "," + (" " + ("res-hdr" + "=" + "137")) == "req-hdr=0, res-hdr=137";
    var n := m.With(ResHdr, 137);
    NextItem(n, "req-hdr=0, res-hdr=137", "res-body", "296", 296, n.With(ResBody, 296));
    assert "req-hdr=0, res-hdr=137" + "," + (" " + ("res-body" + "=" + "296")) ==
           "req-hdr=0, res-hdr=137, res-body=296";
  }

  lemma FirstItem()
    ensures ListParsed(FRESH, "req-hdr=0") == (FRESH.With(ReqHdr, 0), true)
  {
    hide ListParsed, ItemParsed, Lookup, Print;
    NameTable("");
    ExampleNumerals();
    PlainItem(FRESH, "", "req-hdr", "0", 0);
    assert "" + ("req-hdr" + "=" + "0") == "req-hdr=0";
    OneItem(FRESH, "req-hdr=0");
  }

  /** One that says the same twice, and something unknown. */
  lemma RepeatedExample()
    ensures ListParsed(FRESH, "req-hdr=0, req-hdr=7, x=8") == (FRESH.With(ReqHdr, 7), true)
  {
    hide ListParsed, ItemParsed, Lookup, Print;
    NameTable("x");
    ExampleNumerals();
    FirstItem();
    var m := FRESH.With(ReqHdr, 0);
    NextItem(m, "req-hdr=0", "req-hdr", "7", 7, FRESH.With(ReqHdr, 7));
    assert "req-hdr=0" + "," + (" " + ("req-hdr" + "=" + "7")) == "req-hdr=0, req-hdr=7";
    NextItem(FRESH.With(ReqHdr, 7), "req-hdr=0, req-hdr=7", "x", "8", 8, FRESH.With(ReqHdr, 7));
    assert "req-hdr=0, req-hdr=7" + "," + (" " + ("x" + "=" + "8")) == "req-hdr=0, req-hdr=7, x=8";
  }

  lemma ExampleNumerals()
    ensures Itoa(0) == "0" && Itoa(137) == "137" && Itoa(296) == "296" && Itoa(7) == "7" && Itoa(8) == "8"
  {
    assert Print(1, 10) == "1" && Print(13, 10) == "13" && Print(2, 10) == "2" && Print(29, 10) == "29";
  }
}
