/** The plant gallery of the legacy app: each device's room is trimmed (an empty one is
    shown as `미지정`), the distinct rooms are sorted, each room gets a section holding its
    devices in input order, and the card whose `__index` is the selected index is marked.
    Sections are laid out two per row by the same loop as `Gallery.Rows`. */
module LegacyGallery {
  import opened Text
  import opened JsValues
  import Gallery

  /** A device of the list: the device, its original position `__index`, its trimmed room. */
  datatype Item = Item(dev: Js, index: nat, room: string)

  /** A room section: the room name and the items shown under it. */
  datatype Section = Section(room: string, items: seq<Item>)

  // ---------------------------------------------------------------------------------
  // The list
  // ---------------------------------------------------------------------------------

  /** `(d?.room ?? '').trim()`: `None` when the room is a value without a `trim` method
      (a number, a boolean, an array, an object), on which the call throws. */
  function RoomText(d: Js): (r: Option<string>)
    ensures r.Some? <==> Nullish(OptProp(d, "room")) || OptProp(d, "room").Str?
    ensures r.Some? ==> Trim(r.value) == r.value
    ensures Nullish(OptProp(d, "room")) ==> r == Some("")
  {
    var v := Coalesce(OptProp(d, "room"), Str(""));
    if v.Str? then
      TrimIdempotent(v.s);
      Some(Trim(v.s))
    else
      None
  }

  /** Item `i` is device `i`, carrying index `i` and the device's trimmed room. */
  ghost predicate Listed(ds: seq<Js>, items: seq<Item>) {
    |items| == |ds|
    && forall i :: 0 <= i < |ds| ==> RoomText(ds[i]).Some? && items[i] == Item(ds[i], i, RoomText(ds[i]).value)
  }

  /** `devices.map((d, i) => ({ ...d, __index: i, room: … }))`, or `None` when some room
      throws. */
  function List(ds: seq<Js>): (r: Option<seq<Item>>)
    ensures r.Some? <==> forall i :: 0 <= i < |ds| ==> RoomText(ds[i]).Some?
    ensures r.Some? ==> Listed(ds, r.value)
  {
    if forall i :: 0 <= i < |ds| ==> RoomText(ds[i]).Some? then
      Some(seq(|ds|, i requires 0 <= i < |ds| => Item(ds[i], i, RoomText(ds[i]).value)))
    else
      None
  }

  /** `normRoom`: the empty room is shown as `미지정`; every other room as it is. */
  function NormRoom(r: string): (n: string)
    ensures n != "" && (r != "" ==> n == r)
  {
    if r != "" then r else Gallery.Unassigned
  }

  /** The shown room of every item, in list order. */
  function Names(items: seq<Item>): (ns: seq<string>)
    ensures |ns| == |items|
  {
    seq(|items|, i requires 0 <= i < |items| => NormRoom(items[i].room))
  }

  // ---------------------------------------------------------------------------------
  // The order of the rooms
  // ---------------------------------------------------------------------------------

  /** Code-point order on strings: a proper prefix comes first, otherwise the first
      character that differs decides. */
  predicate Less(a: string, b: string) {
    if a == [] then b != []
    else if b == [] then false
    else if a[0] != b[0] then a[0] < b[0]
    else Less(a[1..], b[1..])
  }

  lemma {:induction false} LessIrreflexive(a: string)
    ensures !Less(a, a)
  {
    if a != [] {
      LessIrreflexive(a[1..]);
    }
  }

  lemma {:induction false} LessTrans(a: string, b: string, c: string)
    requires Less(a, b) && Less(b, c)
    ensures Less(a, c)
  {
    if a != [] && b != [] && c != [] && a[0] == b[0] && b[0] == c[0] {
      LessTrans(a[1..], b[1..], c[1..]);
    }
  }

  lemma {:induction false} LessTotal(a: string, b: string)
    requires a != b
    ensures Less(a, b) || Less(b, a)
  {
    if a != [] && b != [] && a[0] == b[0] {
      assert a == [a[0]] + a[1..] && b == [b[0]] + b[1..];
      LessTotal(a[1..], b[1..]);
    }
  }

  /** Strictly ascending, hence without repeats. */
  predicate Ascending(s: seq<string>) {
    forall i, j :: 0 <= i < j < |s| ==> Less(s[i], s[j])
  }

  lemma BelowAll(x: string, s: seq<string>)
    requires Ascending(s) && s != [] && Less(x, s[0])
    ensures forall k :: k in s ==> Less(x, k)
  {
    forall k | k in s ensures Less(x, k) {
      var j :| 0 <= j < |s| && s[j] == k;
      if j > 0 {
        LessTrans(x, s[0], k);
      }
    }
  }

  /** Adds `x` to an ascending list unless it is already there. */
  function Insert(x: string, s: seq<string>): (r: seq<string>)
    requires Ascending(s)
    ensures Ascending(r)
    ensures forall k :: k in r <==> k == x || k in s
  {
    if s == [] then [x]
    else if x == s[0] then s
    else if Less(x, s[0]) then
      BelowAll(x, s);
      [x] + s
    else
      LessTotal(x, s[0]);
      assert Ascending(s[1..]);
      var t := Insert(x, s[1..]);
      assert s == [s[0]] + s[1..];
      AboveAll(s, x, t);
      [s[0]] + t
  }

  lemma AboveAll(s: seq<string>, x: string, t: seq<string>)
    requires Ascending(s) && s != [] && Less(s[0], x) && Ascending(t)
    requires forall k :: k in t <==> k == x || k in s[1..]
    ensures Ascending([s[0]] + t)
  {
    forall k | k in t ensures Less(s[0], k) {
      if k != x {
        var j :| 0 <= j < |s[1..]| && s[1..][j] == k;
        assert s[j + 1] == k;
      }
    }
    var r := [s[0]] + t;
    forall i, j | 0 <= i < j < |r| ensures Less(r[i], r[j]) {
      assert r[j] == t[j - 1] && t[j - 1] in t;
      if i > 0 {
        assert r[i] == t[i - 1];
      }
    }
  }

  /** `Array.from(new Set(rs)).sort(...)`: the distinct rooms, ascending. */
  function SortRooms(rs: seq<string>): (r: seq<string>)
    ensures Ascending(r)
    ensures forall k :: k in r <==> k in rs
  {
    if rs == [] then []
    else
      assert rs == rs[..|rs| - 1] + [rs[|rs| - 1]];
      Insert(rs[|rs| - 1], SortRooms(rs[..|rs| - 1]))
  }

  /** An ascending list is fixed by its members: the sorted rooms do not depend on the
      order in which the Set met them. */
  lemma {:induction false} SortedUnique(a: seq<string>, b: seq<string>)
    requires Ascending(a) && Ascending(b)
    requires forall k :: k in a <==> k in b
    ensures a == b
  {
    if a == [] {
      HeadIn(b);
    } else {
      assert a[0] in a;
      assert b != [];
      if a[0] != b[0] {
        assert a[0] in b && b[0] in a;
        var j :| 0 <= j < |b| && b[j] == a[0];
        var i :| 0 <= i < |a| && a[i] == b[0];
        LessTrans(a[0], b[0], a[0]);
        LessIrreflexive(a[0]);
      }
      TailMembers(a, b);
      SortedUnique(a[1..], b[1..]);
      assert a == [a[0]] + a[1..] && b == [b[0]] + b[1..];
    }
  }

  lemma HeadIn(s: seq<string>)
    ensures s != [] ==> s[0] in s
  {
  }

  lemma TailMembers(a: seq<string>, b: seq<string>)
    requires Ascending(a) && Ascending(b) && a != [] && b != [] && a[0] == b[0]
    requires forall k :: k in a <==> k in b
    ensures Ascending(a[1..]) && Ascending(b[1..])
    ensures forall k :: k in a[1..] <==> k in b[1..]
  {
    LessIrreflexive(a[0]);
    forall k | k in a[1..] ensures k in b[1..] {
      var i :| 0 <= i < |a[1..]| && a[1..][i] == k;
      assert a[i + 1] == k && k in b;
      var j :| 0 <= j < |b| && b[j] == k;
      assert b[1..][j - 1] == k;
    }
    forall k | k in b[1..] ensures k in a[1..] {
      var j :| 0 <= j < |b[1..]| && b[1..][j] == k;
      assert b[j + 1] == k && k in a;
      var i :| 0 <= i < |a| && a[i] == k;
      assert a[1..][i - 1] == k;
    }
  }

  // ---------------------------------------------------------------------------------
  // The sections
  // ---------------------------------------------------------------------------------

  /** `list.filter((d) => normRoom(d.room) === room)`. */
  function Filter(items: seq<Item>, room: string): (r: seq<Item>)
    ensures |r| <= |items|
  {
    if items == [] then []
    else (if NormRoom(items[0].room) == room then [items[0]] else []) + Filter(items[1..], room)
  }

  /** The filter keeps exactly the items shown under `room`. */
  lemma {:induction false} FilterMembers(items: seq<Item>, room: string)
    ensures forall x :: x in Filter(items, room) <==> x in items && NormRoom(x.room) == room
  {
    if items != [] {
      FilterMembers(items[1..], room);
      assert items == [items[0]] + items[1..];
    }
  }

  /** Indices strictly increase along the list. */
  predicate IndexOrdered(items: seq<Item>) {
    forall i, j :: 0 <= i < j < |items| ==> items[i].index < items[j].index
  }

  /** The filter keeps the list order. */
  lemma {:induction false} FilterOrdered(items: seq<Item>, room: string)
    requires IndexOrdered(items)
    ensures IndexOrdered(Filter(items, room))
  {
    if items != [] {
      var rest := items[1..];
      assert IndexOrdered(rest);
      FilterOrdered(rest, room);
      FilterMembers(rest, room);
      var t := Filter(rest, room);
      if NormRoom(items[0].room) == room {
        forall x | x in t ensures items[0].index < x.index {
          var j :| 0 <= j < |rest| && rest[j] == x;
          assert items[j + 1] == x;
        }
        PrependOrdered(items[0], t);
      }
    }
  }

  lemma PrependOrdered(x: Item, t: seq<Item>)
    requires IndexOrdered(t) && forall y :: y in t ==> x.index < y.index
    ensures IndexOrdered([x] + t)
  {
    var r := [x] + t;
    forall i, j | 0 <= i < j < |r| ensures r[i].index < r[j].index {
      assert r[j] == t[j - 1] && t[j - 1] in t;
      if i > 0 {
        assert r[i] == t[i - 1];
      }
    }
  }

  /** `rooms.map((room) => ({ room, items: list.filter(…) }))`, the rooms sorted. */
  function Sections(items: seq<Item>): (ss: seq<Section>)
    ensures forall a, b :: 0 <= a < b < |ss| ==> Less(ss[a].room, ss[b].room)
  {
    var rooms := SortRooms(Names(items));
    seq(|rooms|, j requires 0 <= j < |rooms| => Section(rooms[j], Filter(items, rooms[j])))
  }

  /** The whole gallery: `None` when building the list throws. */
  function Layout(ds: seq<Js>): (r: Option<seq<Section>>)
    ensures r.Some? <==> forall i :: 0 <= i < |ds| ==> RoomText(ds[i]).Some?
    ensures r.Some? ==> exists items :: Listed(ds, items) && r.value == Sections(items)
  {
    match List(ds)
    case None => None
    case Some(items) => Some(Sections(items))
  }

  lemma RoomsOfSections(items: seq<Item>, a: nat)
    requires a < |Sections(items)|
    ensures Sections(items)[a].room in Names(items)
    ensures Sections(items)[a].items == Filter(items, Sections(items)[a].room)
  {
    assert Sections(items)[a].room in SortRooms(Names(items));
  }

  /** Each item is in exactly one section: the one for its shown room. */
  lemma OneSectionEach(items: seq<Item>, i: nat)
    requires i < |items|
    ensures exists a :: 0 <= a < |Sections(items)| && items[i] in Sections(items)[a].items
    ensures forall a :: 0 <= a < |Sections(items)| && items[i] in Sections(items)[a].items
                        ==> Sections(items)[a].room == NormRoom(items[i].room)
    ensures forall a, b :: (0 <= a < |Sections(items)| && 0 <= b < |Sections(items)|
                            && items[i] in Sections(items)[a].items && items[i] in Sections(items)[b].items) ==> a == b
  {
    var ss := Sections(items);
    var rooms := SortRooms(Names(items));
    var room := NormRoom(items[i].room);
    assert Names(items)[i] == room;
    assert room in rooms;
    var a :| 0 <= a < |rooms| && rooms[a] == room;
    FilterMembers(items, room);
    assert items[i] in ss[a].items;
    forall a | 0 <= a < |ss| && items[i] in ss[a].items ensures ss[a].room == room {
      FilterMembers(items, ss[a].room);
    }
    forall a, b | 0 <= a < |ss| && 0 <= b < |ss| && items[i] in ss[a].items && items[i] in ss[b].items
      ensures a == b
    {
      FilterMembers(items, ss[a].room);
      FilterMembers(items, ss[b].room);
      if a < b || b < a {
        LessIrreflexive(room);
      }
    }
  }

  /** No section is empty: every sorted room comes from some item. */
  lemma NoEmptySection(items: seq<Item>, a: nat)
    requires a < |Sections(items)|
    ensures |Sections(items)[a].items| > 0
  {
    var room := Sections(items)[a].room;
    RoomsOfSections(items, a);
    var i :| 0 <= i < |items| && Names(items)[i] == room;
    FilterMembers(items, room);
    assert items[i] in Sections(items)[a].items;
  }

  /** Within a section the items keep the list order, and each is the item of its own
      `__index`. */
  lemma SectionItem(ds: seq<Js>, items: seq<Item>, a: nat, p: nat)
    requires Listed(ds, items) && a < |Sections(items)| && p < |Sections(items)[a].items|
    ensures IndexOrdered(Sections(items)[a].items)
    ensures var x := Sections(items)[a].items[p];
            x.index < |items| && x == items[x.index] && NormRoom(x.room) == Sections(items)[a].room
  {
    var s := Sections(items)[a];
    RoomsOfSections(items, a);
    assert IndexOrdered(items);
    FilterOrdered(items, s.room);
    FilterMembers(items, s.room);
    assert s.items[p] in s.items;
  }

  /** A card is selected when its `__index` is the selected index. */
  predicate Selected(x: Item, selectedIndex: int) {
    x.index == selectedIndex
  }

  /** At most one card in the gallery is selected. */
  lemma AtMostOneSelected(ds: seq<Js>, items: seq<Item>, sel: int, a: nat, p: nat, b: nat, q: nat)
    requires Listed(ds, items)
    requires a < |Sections(items)| && p < |Sections(items)[a].items|
    requires b < |Sections(items)| && q < |Sections(items)[b].items|
    requires Selected(Sections(items)[a].items[p], sel) && Selected(Sections(items)[b].items[q], sel)
    ensures a == b && p == q
  {
    var ss := Sections(items);
    SectionItem(ds, items, a, p);
    SectionItem(ds, items, b, q);
    var x := ss[a].items[p];
    assert ss[b].items[q] == x;
    OneSectionEach(items, x.index);
    assert x in ss[a].items && x in ss[b].items;
    if p < q || q < p { }
  }

  /** The delete button is disabled exactly when there are no devices, which is exactly
      when there is no section. */
  lemma DisabledIffNoSections(ds: seq<Js>, items: seq<Item>)
    requires Listed(ds, items)
    ensures |ds| == 0 <==> Sections(items) == []
  {
    if |ds| > 0 {
      OneSectionEach(items, 0);
    }
  }
}
