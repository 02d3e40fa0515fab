/**
 The Encapsulated header: the offset of each section of an encapsulated
 message, how it is computed from a payload, sorted, printed and parsed
 (sections 4.4 and 4.4.1 of RFC 3507).
 */
module Encapsulated {
  import opened Octets
  import opened Numerals
  import opened Text

  /** The entities an Encapsulated list can name, in the order of their names. */
  datatype Entity = NullBody | OptBody | ReqBody | ReqHdr | ResBody | ResHdr

  const ENTITIES: seq<Entity> := [NullBody, OptBody, ReqBody, ReqHdr, ResBody, ResHdr]

  function Name(e: Entity): string {
    match e
    case NullBody => "null-body"
    case OptBody => "opt-body"
    case ReqBody => "req-body"
    case ReqHdr => "req-hdr"
    case ResBody => "res-body"
    case ResHdr => "res-hdr"
  }

  /** Position of the entity's name among the sorted keys of the map. */
  function KeyRank(e: Entity): nat {
    match e
    case NullBody => 0
    case OptBody => 1
    case ReqBody => 2
    case ReqHdr => 3
    case ResBody => 4
    case ResHdr => 5
  }

  /** The offset stored for each entity; a negative one means absent. */
  datatype Offsets = Offsets(nullBody: int, optBody: int, reqBody: int, reqHdr: int, resBody: int, resHdr: int) {
    function At(e: Entity): int {
      match e
      case NullBody => nullBody
      case OptBody => optBody
      case ReqBody => reqBody
      case ReqHdr => reqHdr
      case ResBody => resBody
      case ResHdr => resHdr
    }

    function With(e: Entity, offset: int): Offsets {
      match e
      case NullBody => this.(nullBody := offset)
      case OptBody => this.(optBody := offset)
      case ReqBody => this.(reqBody := offset)
      case ReqHdr => this.(reqHdr := offset)
      case ResBody => this.(resBody := offset)
      case ResHdr => this.(resHdr := offset)
    }
  }

  const FRESH := Offsets(-1, -1, -1, -1, -1, -1)

  /** The sections of a message, shared by requests and responses. */
  datatype Payload = Payload(reqHeader: string, reqBody: string, resHeader: string, resBody: string, ieof: bool)

  const EMPTY := Payload("", "", "", "", false)

  // ----- Sorting -----

  /** No entity twice, and offsets in order. */
  ghost predicate Ordered(order: seq<Entity>, m: Offsets) {
    && (forall i, j :: 0 <= i < j < |order| ==> order[i] != order[j])
    && (forall i, j :: 0 <= i < j < |order| ==> m.At(order[i]) <= m.At(order[j]))
  }

  /** All that sorting by offset promises: every entity once, offsets in order; ties in any order. */
  ghost predicate Sorts(order: seq<Entity>, m: Offsets) {
    (forall e: Entity :: e in order) && Ordered(order, m)
  }

  /** Equal offsets keep the key order of the map. */
  ghost predicate TiesInKeyOrder(order: seq<Entity>, m: Offsets) {
    forall i, j :: 0 <= i < j < |order| && m.At(order[i]) == m.At(order[j]) ==> KeyRank(order[i]) < KeyRank(order[j])
  }

  // ----- Computing offsets from a payload -----

  function Section(p: Payload, e: Entity): string {
    match e
    case ReqHdr => p.reqHeader
    case ReqBody => p.reqBody
    case ResHdr => p.resHeader
    case ResBody => p.resBody
    case _ => ""
  }

  /** How many octets of content precede section `e`. */
  function Before(p: Payload, e: Entity): nat {
    match e
    case ReqHdr => 0
    case ReqBody => |p.reqHeader|
    case ResHdr => |p.reqHeader| + |p.reqBody|
    case ResBody => |p.reqHeader| + |p.reqBody| + |p.resHeader|
    case _ => Total(p)
  }

  function Total(p: Payload): nat {
    |p.reqHeader| + |p.reqBody| + |p.resHeader| + |p.resBody|
  }

  /** Where the last section that is not empty starts. */
  function LastStart(p: Payload): nat {
    if p.resBody != "" then Before(p, ResBody)
    else if p.resHeader != "" then Before(p, ResHdr)
    else if p.reqBody != "" then Before(p, ReqBody)
    else 0
  }

  /** `update_encapsulated`: a section that is not empty gets its start, other entries are kept. */
  function Updated(m: Offsets, p: Payload): Offsets {
    Offsets(
      if ToWord(LastStart(p)) == 0 then ToInt32(Total(p)) else m.nullBody,
      m.optBody,
      UpdatedAt(m, p, ReqBody), UpdatedAt(m, p, ReqHdr), UpdatedAt(m, p, ResBody), UpdatedAt(m, p, ResHdr))
  }

  function UpdatedAt(m: Offsets, p: Payload, e: Entity): int {
    if Section(p, e) != "" then ToInt32(Before(p, e)) else m.At(e)
  }

  // ----- Printing -----

  function EntryText(e: Entity, offset: nat): string {
    Name(e) + "=" + Itoa(offset)
  }

  /** The entities that are present, in the given order. */
  function Present(order: seq<Entity>, m: Offsets): (list: seq<Entity>)
    ensures forall i :: 0 <= i < |list| ==> m.At(list[i]) >= 0 && list[i] in order
    ensures forall e :: e in order && m.At(e) >= 0 ==> e in list
  {
    if order == [] then []
    else if m.At(order[0]) >= 0 then [order[0]] + Present(order[1..], m)
    else Present(order[1..], m)
  }

  /** The items of a list, each but the first with a blank in front. */
  function Items(list: seq<Entity>, m: Offsets): (items: seq<string>)
    requires forall i :: 0 <= i < |list| ==> m.At(list[i]) >= 0
    ensures |items| == |list|
  {
    seq(|list|, i requires 0 <= i < |list| => (if i == 0 then "" else " ") + EntryText(list[i], m.At(list[i])))
  }

  function ListText(list: seq<Entity>, m: Offsets): string
    requires forall i :: 0 <= i < |list| ==> m.At(list[i]) >= 0
  {
    if list == [] then "" else Join(Items(list, m), ',')
  }

  /** `encapsulated_header_str`, for whatever order the sort returned. */
  function EncapsulatedText(order: seq<Entity>, m: Offsets): string {
    var list := Present(order, m);
    if list == [] then "null-body=0" else ListText(list, m)
  }

  // ----- Parsing -----

  datatype Option<+T> = None | Some(value: T)

  function Lookup(name: string): Option<Entity> {
    if name == "null-body" then Some(NullBody)
    else if name == "opt-body" then Some(OptBody)
    else if name == "req-body" then Some(ReqBody)
    else if name == "req-hdr" then Some(ReqHdr)
    else if name == "res-body" then Some(ResBody)
    else if name == "res-hdr" then Some(ResHdr)
    else None
  }

  /** One item of a list; the flag says whether it had the form name=value. */
  function ItemParsed(m: Offsets, item: string): (Offsets, bool) {
    var parts := Pieces(Trim(item), "=");
    if |parts| == 2 then
      var e := Lookup(Trim(parts[0]));
      (if e.Some? then m.With(e.value, Atoi(Trim(parts[1]))) else m, true)
    else (m, false)
  }

  function ItemsParsed(m: Offsets, items: seq<string>): (Offsets, bool) {
    if items == [] then (m, true)
    else
      var (m1, ok1) := ItemsParsed(m, items[..|items| - 1]);
      var (m2, ok2) := ItemParsed(m1, items[|items| - 1]);
      (m2, ok1 && ok2)
  }

  /** `attach_encapsulated`. */
  function ListParsed(m: Offsets, text: string): (Offsets, bool) {
    ItemsParsed(m, Pieces(Trim(text), ","))
  }

  // ----- The header object -----

  /** The contents of a header: plain fields, and the offsets. */
  datatype Fields = Fields(headers: map<string, string>, offsets: Offsets)

  /** What attaching a trimmed key and value does. */
  function Attached(f: Fields, key: string, value: string): Fields {
    if key == "Encapsulated" then f.(offsets := ListParsed(f.offsets, value).0)
    else f.(headers := f.headers[key := value])
  }

  class Header {
    var headers: map<string, string>
    var encapsulated: Offsets

    constructor ()
      ensures headers == map[] && encapsulated == FRESH
    {
      headers, encapsulated := map[], FRESH;
    }

    /** `value`: a missing key reads as empty. */
    function Value(key: string): (value: string)
      reads this
      ensures key in headers ==> value == headers[key]
      ensures key !in headers ==> value == ""
    {
      if key in headers then headers[key] else ""
    }

    function State(): Fields
      reads this
    {
      Fields(headers, encapsulated)
    }

    /** `attach` */
    method Attach(key: string, value: string)
      modifies this
      ensures State() == Attached(old(State()), Trim(key), Trim(value))
    {
      AttachTrimmed(Trim(key), Trim(value));
    }

    method AttachTrimmed(key: string, value: string)
      modifies this
      ensures State() == Attached(old(State()), key, value)
    {
      if key == "Encapsulated" {
        var _ := AttachEncapsulated(value);
      } else {
        headers := headers[key := value];
      }
    }

    /** `attach_encapsulated` */
    method AttachEncapsulated(text: string) returns (ok: bool)
      modifies this`encapsulated
      ensures encapsulated == ListParsed(old(encapsulated), text).0
      ensures ok == ListParsed(old(encapsulated), text).1
    {
      hide Trim, Pieces, Atoi, Lookup;
      ok := true;
      var list := Split(Trim(text), ",");
      var i := 0;
      while i < |list|
        invariant 0 <= i <= |list|
        invariant (encapsulated, ok) == ItemsParsed(old(encapsulated), list[..i])
      {
        assert list[..i + 1][..i] == list[..i];
        var entity := Split(Trim(list[i]), "=");
        if |entity| == 2 {
          var e := Lookup(Trim(entity[0]));
          if e.Some? {
            encapsulated := encapsulated.With(e.value, Atoi(Trim(entity[1])));
          }
        } else {
          ok := false;
        }
        i := i + 1;
      }
      assert list[..|list|] == list;
    }

    /** `update_encapsulated` */
    method UpdateEncapsulated(p: Payload)
      modifies this`encapsulated
      ensures encapsulated == Updated(old(encapsulated), p)
    {
      assert ToWord(0) == 0;
      hide ToWord, ToInt32;
      var length: Word, offset: Word := 0, 0;
      WordAdd(0, |p.reqHeader|);
      WordAdd(Before(p, ReqBody), |p.reqBody|);
      WordAdd(Before(p, ResHdr), |p.resHeader|);
      WordAdd(Before(p, ResBody), |p.resBody|);
      WordAdd(Total(p), 0);
      if |p.reqHeader| > 0 {
        encapsulated := encapsulated.With(ReqHdr, ToInt32(length));
        offset := length;
        length := ToWord(length + |p.reqHeader|);
      }
      ghost var m := old(encapsulated);
      assert length == ToWord(Before(p, ReqBody));
      assert encapsulated == m.(reqHdr := UpdatedAt(m, p, ReqHdr));
      if |p.reqBody| > 0 {
        encapsulated := encapsulated.With(ReqBody, ToInt32(length));
        offset := length;
        length := ToWord(length + |p.reqBody|);
      }
      assert length == ToWord(Before(p, ResHdr));
      assert encapsulated == m.(reqHdr := UpdatedAt(m, p, ReqHdr), reqBody := UpdatedAt(m, p, ReqBody));
      if |p.resHeader| > 0 {
        encapsulated := encapsulated.With(ResHdr, ToInt32(length));
        offset := length;
        length := ToWord(length + |p.resHeader|);
      }
      assert length == ToWord(Before(p, ResBody));
      if |p.resBody| > 0 {
        encapsulated := encapsulated.With(ResBody, ToInt32(length));
        offset := length;
        length := ToWord(length + |p.resBody|);
      }
      assert length == ToWord(Total(p)) && offset == ToWord(LastStart(p));
      if offset == 0 {
        encapsulated := encapsulated.With(NullBody, ToInt32(length));
      }
    }

    /**
     `sort_encapsulated_header`.  The contract is what sorting with that
     comparison promises; it says nothing about ties.
     */
    method SortEncapsulated() returns (order: seq<Entity>)
      ensures Sorts(order, encapsulated)
    {
      order := [];
      var k := 0;
      while k < |ENTITIES|
        invariant 0 <= k <= |ENTITIES|
        invariant forall e :: e in order <==> e in ENTITIES[..k]
        invariant Ordered(order, encapsulated)
      {
        var e := ENTITIES[k];
        var j := |order|;
        while j > 0 && encapsulated.At(order[j - 1]) > encapsulated.At(e)
          invariant 0 <= j <= |order|
          invariant forall i :: j <= i < |order| ==> encapsulated.At(order[i]) > encapsulated.At(e)
        {
          j := j - 1;
        }
        OtherEntity(k);
        InsertKeepsOrder(order, encapsulated, j, e);
        order := Inserted(order, j, e);
        assert ENTITIES[..k + 1] == ENTITIES[..k] + [e];
        k := k + 1;
      }
      forall e: Entity
        ensures e in order
      {
        assert e == ENTITIES[KeyRank(e)];
      }
    }

    /** `encapsulated_header_str` */
    method EncapsulatedStr() returns (text: string, ghost order: seq<Entity>)
      ensures Sorts(order, encapsulated)
      ensures text == EncapsulatedText(order, encapsulated)
    {
      var sorted := SortEncapsulated();
      order := sorted;
      text := ListStr(sorted);
      if Present(sorted, encapsulated) != [] {
        ListTextNotEmpty(Present(sorted, encapsulated), encapsulated);
      }
      if text == "" {
        text := "null-body=0";
      }
    }

    /** The loop of `encapsulated_header_str`. */
    method ListStr(sorted: seq<Entity>) returns (text: string)
      ensures text == ListText(Present(sorted, encapsulated), encapsulated)
    {
      hide EntryText, ListText, Present;
      text := "";
      var i := 0;
      NothingListed(encapsulated);
      assert sorted[..0] == [];
      while i < |sorted|
        invariant 0 <= i <= |sorted|
        invariant text == ListText(Present(sorted[..i], encapsulated), encapsulated)
      {
        ghost var list := Present(sorted[..i], encapsulated);
        assert sorted[..i + 1] == sorted[..i] + [sorted[i]];
        PresentAppend(sorted[..i], sorted[i], encapsulated);
        if encapsulated.At(sorted[i]) >= 0 {
          ListTextNext(list, sorted[i], encapsulated);
          if text != "" {
            text := text + ", ";
          }
          text := text + EntryText(sorted[i], encapsulated.At(sorted[i]));
        } else {
          assert list + [] == list;
        }
        i := i + 1;
      }
      assert sorted[..|sorted|] == sorted;
    }
  }

  lemma OtherEntity(k: nat)
    requires k < |ENTITIES|
    ensures ENTITIES[k] !in ENTITIES[..k]
  {
    assert KeyRank(ENTITIES[k]) == k;
    assert forall i :: 0 <= i < k ==> KeyRank(ENTITIES[i]) == i;
  }

  lemma InsertKeepsOrder(order: seq<Entity>, m: Offsets, j: nat, e: Entity)
    requires Ordered(order, m) && e !in order && j <= |order|
    requires j > 0 ==> m.At(order[j - 1]) <= m.At(e)
    requires forall i :: j <= i < |order| ==> m.At(order[i]) > m.At(e)
    ensures Ordered(Inserted(order, j, e), m)
  {
    hide Inserted;
    var r := Inserted(order, j, e);
    forall a | 0 <= a < j
      ensures m.At(order[a]) <= m.At(e)
    {
      assert m.At(order[a]) <= m.At(order[j - 1]);
    }
    forall a, b | 0 <= a < b < |r|
      ensures r[a] != r[b] && m.At(r[a]) <= m.At(r[b])
    {
      if b < j {
        assert r[a] == order[a] && r[b] == order[b];
      } else if b == j {
        assert r[a] == order[a];
      } else if a < j {
        assert r[a] == order[a] && r[b] == order[b - 1];
      } else if a == j {
        assert r[b] == order[b - 1];
      } else {
        assert r[a] == order[a - 1] && r[b] == order[b - 1];
      }
    }
  }

  function Inserted(s: seq<Entity>, j: nat, x: Entity): (r: seq<Entity>)
    requires j <= |s|
    ensures |r| == |s| + 1 && r[j] == x
    ensures forall i :: 0 <= i < j ==> r[i] == s[i]
    ensures forall i :: j < i < |r| ==> r[i] == s[i - 1]
    ensures forall y :: y in r <==> y in s || y == x
  {
    var r := s[..j] + [x] + s[j..];
    assert s == s[..j] + s[j..];
    r
  }

  lemma {:induction false} PresentAppend(order: seq<Entity>, e: Entity, m: Offsets)
    ensures Present(order + [e], m) == Present(order, m) + if m.At(e) >= 0 then [e] else []
  {
    if order == [] {
      assert order + [e] == [e] && [e][1..] == [];
    } else {
      assert (order + [e])[1..] == order[1..] + [e];
      PresentAppend(order[1..], e, m);
    }
  }

  lemma {:induction false} JoinAppend(items: seq<string>, item: string, d: char)
    requires |items| >= 1
    ensures Join(items + [item], d) == Join(items, d) + ([d] + item)
  {
    if |items| == 1 {
      assert (items + [item])[1..] == [item];
      assert items[0] + [d] + item == items[0] + ([d] + item);
    } else {
      assert (items + [item])[1..] == items[1..] + [item];
      JoinAppend(items[1..], item, d);
      Associative(items[0] + [d], Join(items[1..], d), [d] + item);
    }
  }

  lemma ListTextAppend(list: seq<Entity>, e: Entity, m: Offsets)
    requires forall i :: 0 <= i < |list| ==> m.At(list[i]) >= 0
    requires m.At(e) >= 0
    ensures ListText(list + [e], m) ==
            if list == [] then EntryText(e, m.At(e)) else ListText(list, m) + ", " + EntryText(e, m.At(e))
  {
    hide EntryText;
    var entry := EntryText(e, m.At(e));
    if list == [] {
      assert Items(list + [e], m) == ["" + entry];
      assert "" + entry == entry;
    } else {
      ItemsAppend(list, e, m);
      JoinAppend(Items(list, m), " " + entry, ',');
      calc {
        ListText(list + [e], m);
        ListText(list, m) + ([','] + (" " + entry));
        { assert [','] + (" " + entry) == ", " + entry; }
        ListText(list, m) + (", " + entry);
        { Associative(ListText(list, m), ", ", entry); }
        ListText(list, m) + ", " + entry;
      }
    }
  }

  lemma ItemsAppend(list: seq<Entity>, e: Entity, m: Offsets)
    requires list != [] && forall i :: 0 <= i < |list| ==> m.At(list[i]) >= 0
    requires m.At(e) >= 0
    ensures Items(list + [e], m) == Items(list, m) + [" " + EntryText(e, m.At(e))]
  {
    hide EntryText;
  }

  lemma ListTextNotEmpty(list: seq<Entity>, m: Offsets)
    requires list != [] && forall i :: 0 <= i < |list| ==> m.At(list[i]) >= 0
    ensures ListText(list, m) != ""
  {
    assert |Items(list, m)[0]| > 0;
  }

  lemma NothingListed(m: Offsets)
    ensures Present([], m) == [] && ListText([], m) == ""
  {
  }

  /** How one more entry extends the text. */
  lemma ListTextNext(list: seq<Entity>, e: Entity, m: Offsets)
    requires forall i :: 0 <= i < |list| ==> m.At(list[i]) >= 0
    requires m.At(e) >= 0
    ensures var text := ListText(list, m);
      ListText(list + [e], m) == (if text != "" then text + ", " else text) + EntryText(e, m.At(e))
  {
    ListTextAppend(list, e, m);
    if list == [] {
      assert "" + EntryText(e, m.At(e)) == EntryText(e, m.At(e));
    } else {
      ListTextNotEmpty(list, m);
    }
  }
}
