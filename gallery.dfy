/** The plant gallery of the current app: the Korean species label on each card, the
    cards grouped by room in order of first appearance, the groups laid out two to a
    row, and the selected card. */
module Gallery {
  import opened Text
  import opened JsValues

  // ---------------------------------------------------------------------------
  // speciesKR

  /** What the label keeps: Hangul Jamo (U+1100–U+11FF), Hangul Compatibility Jamo
      (U+3130–U+318F), Hangul syllables (U+AC00–U+D7A3), `\s` and the middle dot. */
  predicate IsLabelChar(c: char) {
    ('\U{1100}' <= c <= '\U{11FF}') || ('\U{3130}' <= c <= '\U{318F}')
    || ('\U{AC00}' <= c <= '\U{D7A3}') || IsJsSpace(c) || c == '\U{00B7}'
  }

  /** `t.replace(/[^…]/g, '')`: every character that is not a label character goes. */
  function KeepLabel(t: string): (r: string)
    ensures forall c :: c in r <==> c in t && IsLabelChar(c)
    ensures |r| <= |t|
  {
    if t == [] then []
    else
      assert t == [t[0]] + t[1..];
      (if IsLabelChar(t[0]) then [t[0]] else []) + KeepLabel(t[1..])
  }

  /** The position of the last `c` in `s`, or -1. */
  function LastIndexOf(s: string, c: char): (i: int)
    ensures -1 <= i < |s|
    ensures i >= 0 ==> s[i] == c
    ensures forall j :: i < j < |s| ==> s[j] != c
  {
    if s == [] then -1
    else if s[|s| - 1] == c then |s| - 1
    else LastIndexOf(s[..|s| - 1], c)
  }

  /** The position of the first `c` in `s` from `from` on, or -1. */
  function FirstIndexOf(s: string, c: char, from: nat): (i: int)
    requires from <= |s|
    ensures i == -1 || from <= i < |s|
    ensures i >= 0 ==> s[i] == c
    ensures forall j :: from <= j < (if i < 0 then |s| else i) ==> s[j] != c
    decreases |s| - from
  {
    if from == |s| then -1
    else if s[from] == c then from
    else FirstIndexOf(s, c, from + 1)
  }

  /** `replace(/\s*\([^)]*\)\s*$/g, '')`. The text must end in `)` (white space aside);
      the leftmost match starts at the first `(` after the `)` before that one, together
      with the white space just before it, and runs to the end. */
  function StripNote(s: string): (r: string)
    ensures |r| <= |s| && r == s[..|r|]
  {
    var u := TrimEnd(s);
    TrimEndPrefix(s);
    if u == [] || u[|u| - 1] != ')' then s
    else
      var body := u[..|u| - 1];
      var p := FirstIndexOf(body, '(', LastIndexOf(body, ')') + 1);
      if p < 0 then s
      else
        TrimEndPrefix(body[..p]);
        TrimEnd(body[..p])
  }

  lemma TrimEndPrefix(s: string)
    ensures |TrimEnd(s)| <= |s| && TrimEnd(s) == s[..|TrimEnd(s)|]
  {
    TrimEndShape(s);
  }

  /** The part before the first `/`. */
  lemma {:induction false} FirstPartHasNoSlash(s: string)
    ensures '/' !in Split(s, '/')[0]
    decreases |s|
  {
    if s != [] {
      FirstPartHasNoSlash(s[1..]);
    }
  }

  /** A slice of a text without `c` has no `c`. */
  lemma SliceLacks(s: string, i: nat, k: nat, c: char)
    requires i <= k <= |s| && c !in s
    ensures c !in s[i..k]
  {
  }

  /** The first name, trimmed: `t.split('/')[0].trim()` after the note is cut off. */
  function FirstName(s: string): (t: string)
    ensures '/' !in t && Trim(t) == t
  {
    var part := Split(StripNote(s), '/')[0];
    FirstPartHasNoSlash(StripNote(s));
    TrimIsCore(part);
    TrimIdempotent(part);
    var i, k :| 0 <= i <= k <= |part| && Trim(part) == part[i..k];
    SliceLacks(part, i, k, '/');
    Trim(part)
  }

  /** `speciesKR(s)`: the Korean name out of a species text. The label is either made
      only of label characters, or it is the trimmed first name, which then has none. */
  function SpeciesKR(s: Js): (r: string)
    ensures !Truthy(s) ==> r == ""
    ensures '/' !in r
    ensures (forall c :: c in r ==> IsLabelChar(c))
         || (Trim(r) == r && forall c :: c in r ==> !IsLabelChar(c))
  {
    if !Truthy(s) then ""
    else
      var t := FirstName(ToStr(s));
      var cleaned := KeepLabel(t);
      if cleaned != "" then cleaned else t
  }

  /** A name followed by a parenthesised note without brackets of its own loses the note
      and the space before it. */
  lemma StripsNote(a: string, note: string)
    requires a != [] && !IsJsSpace(a[|a| - 1])
    requires '(' !in a && ')' !in a && '(' !in note && ')' !in note
    ensures StripNote(a + " (" + note + ")") == a
  {
    var s := a + " (" + note + ")";
    assert TrimEnd(s) == s;
    var body := s[..|s| - 1];
    assert body == a + " (" + note;
    assert ')' !in body;
    var p := FirstIndexOf(body, '(', 0);
    assert body[|a| + 1] == '(';
    assert forall j :: 0 <= j < |a| + 1 ==> body[j] != '(' by {
      forall j | 0 <= j < |a| + 1 ensures body[j] != '(' {
        if j < |a| { assert body[j] == a[j]; }
      }
    }
    assert p == |a| + 1;
    assert body[..p] == a + " ";
    assert (a + " ")[..|a|] == a;
    assert TrimEnd(a) == a;
  }

  /** A text that does not end in `)` keeps everything. */
  lemma KeepsUnnoted(a: string)
    requires a != [] && !IsJsSpace(a[|a| - 1]) && a[|a| - 1] != ')'
    ensures StripNote(a) == a
  {
    assert TrimEnd(a) == a;
  }

  /** The first name of `a / b` is `a`, trimmed. */
  lemma FirstOfTwo(a: string, b: string)
    requires '/' !in a
    ensures Split(a + "/" + b, '/')[0] == a
  {
    SplitPrefix(a, b, '/');
    assert a + "/" + b == a + ['/'] + b;
  }

  /** A text without white space at either end is its own trim, also with one space
      added at the end. */
  lemma TrimmedText(a: string)
    requires a != [] && !IsJsSpace(a[0]) && !IsJsSpace(a[|a| - 1])
    ensures Trim(a) == a && Trim(a + " ") == a
  {
    assert TrimStart(a) == a;
    assert TrimEnd(a) == a;
    var b := a + " ";
    assert b[0] == a[0];
    assert TrimStart(b) == b;
    assert b[..|b| - 1] == a;
  }

  lemma {:induction false} KeepsAllLabel(t: string)
    requires forall c :: c in t ==> IsLabelChar(c)
    ensures KeepLabel(t) == t
  {
    if t != [] {
      assert t[0] in t;
      KeepsAllLabel(t[1..]);
      assert [t[0]] + t[1..] == t;
    }
  }

  /** The label of a text given its first name `t`. */
  lemma LabelIs(x: string, t: string)
    requires x != "" && FirstName(x) == t
    ensures KeepLabel(t) != "" ==> SpeciesKR(Str(x)) == KeepLabel(t)
    ensures KeepLabel(t) == "" ==> SpeciesKR(Str(x)) == t
  {
  }

  lemma {:induction false} KeepsNoLabel(t: string)
    requires forall c :: c in t ==> !IsLabelChar(c)
    ensures KeepLabel(t) == ""
  {
    if t != [] {
      assert t[0] in t;
      KeepsNoLabel(t[1..]);
    }
  }

  /** The first example the source documents. */
  lemma PansyExample(x: string)
    requires x == "팬지 / 삼색제비꽃 (Pansy)"
    ensures SpeciesKR(Str(x)) == "팬지"
  {
    var t := "팬지";
    PansyFirstName(x, "팬지 / 삼색제비꽃", "팬지 ", " 삼색제비꽃", t);
    KeepsAllLabel(t);
    LabelIs(x, t);
  }

  lemma PansyFirstName(x: string, m: string, a: string, b: string, t: string)
    requires x == "팬지 / 삼색제비꽃 (Pansy)" && m == "팬지 / 삼색제비꽃"
    requires a == "팬지 " && b == " 삼색제비꽃" && t == "팬지"
    ensures FirstName(x) == t
  {
    PansyNote(x, m, "Pansy");
    FirstOfTwo(a, b);
    PansySplit(m, a, b, t);
    TrimmedText(t);
  }

  lemma PansySplit(m: string, a: string, b: string, t: string)
    requires m == "팬지 / 삼색제비꽃" && a == "팬지 " && b == " 삼색제비꽃" && t == "팬지"
    ensures a + "/" + b == m && t + " " == a
  {
  }

  lemma PansyNote(x: string, a: string, note: string)
    requires x == "팬지 / 삼색제비꽃 (Pansy)" && a == "팬지 / 삼색제비꽃" && note == "Pansy"
    ensures StripNote(x) == a
  {
    StripsNote(a, note);
    PansyParts(x, a, note);
  }

  lemma PansyParts(x: string, a: string, note: string)
    requires x == "팬지 / 삼색제비꽃 (Pansy)" && a == "팬지 / 삼색제비꽃" && note == "Pansy"
    ensures a + " (" + note + ")" == x
  {
  }

  /** The second example the source documents. */
  lemma LavenderExample(x: string)
    requires x == "라벤더 (Lavender)"
    ensures SpeciesKR(Str(x)) == "라벤더"
  {
    var t := "라벤더";
    LavenderFirstName(x);
    KeepsAllLabel(t);
    LabelIs(x, t);
  }

  lemma LavenderFirstName(x: string)
    requires x == "라벤더 (Lavender)"
    ensures FirstName(x) == "라벤더"
  {
    var t := "라벤더";
    LavenderNote(x, t, "Lavender");
    SplitNoSep(t, '/');
    TrimmedText(t);
  }

  lemma LavenderNote(x: string, a: string, note: string)
    requires x == "라벤더 (Lavender)" && a == "라벤더" && note == "Lavender"
    ensures StripNote(x) == a
  {
    StripsNote(a, note);
    LavenderParts(x, a, note);
  }

  lemma LavenderParts(x: string, a: string, note: string)
    requires x == "라벤더 (Lavender)" && a == "라벤더" && note == "Lavender"
    ensures a + " (" + note + ")" == x
  {
  }

  /** A name with nothing Korean before its `/` is shown as its trimmed first name. */
  lemma NoKoreanExample(x: string)
    requires x == "Mint /민트"
    ensures SpeciesKR(Str(x)) == "Mint"
  {
    var t := "Mint";
    KeepsUnnoted(x);
    FirstOfTwo("Mint ", "민트");
    assert "Mint " + "/" + "민트" == x;
    TrimmedText(t);
    assert t + " " == "Mint ";
    assert FirstName(x) == t;
    KeepsNoLabel(t);
    LabelIs(x, t);
  }

  // ---------------------------------------------------------------------------
  // Grouping by room

  const Unassigned: string := "미지정"

  /** A card: the device record spread with its position in the device list, `__idx`. */
  datatype Card = Card(dev: Js, idx: nat)

  datatype Group = Group(room: string, items: seq<Card>)

  /** `(d.room && String(d.room).trim()) || '미지정'` */
  function RoomOf(d: Js): (r: string)
    ensures r != "" && Trim(r) == r
  {
    var v := OptProp(d, "room");
    if Truthy(v) && Trim(ToStr(v)) != "" then
      TrimIdempotent(ToStr(v));
      Trim(ToStr(v))
    else
      assert Trim(Unassigned) == Unassigned;
      Unassigned
  }

  function Cards(ds: seq<Js>): (cs: seq<Card>)
    ensures |cs| == |ds|
  {
    seq(|ds|, i requires 0 <= i < |ds| => Card(ds[i], i))
  }

  predicate Increasing(cs: seq<Card>) {
    forall a, b :: 0 <= a < b < |cs| ==> cs[a].idx < cs[b].idx
  }

  /** The cards of one room, in their order in `cs`. */
  function InRoom(cs: seq<Card>, room: string): seq<Card> {
    if cs == [] then []
    else InRoom(cs[..|cs| - 1], room) + (if RoomOf(cs[|cs| - 1].dev) == room then [cs[|cs| - 1]] else [])
  }

  /** A room's cards are exactly the cards with that room. */
  lemma {:induction false} InRoomMembers(cs: seq<Card>, room: string)
    ensures forall c :: c in InRoom(cs, room) <==> c in cs && RoomOf(c.dev) == room
  {
    if cs != [] {
      var init := cs[..|cs| - 1];
      InRoomMembers(init, room);
      assert cs == init + [cs[|cs| - 1]];
    }
  }

  /** The cards of a room keep their input order. */
  lemma {:induction false} InRoomIncreasing(cs: seq<Card>, room: string)
    requires Increasing(cs)
    ensures Increasing(InRoom(cs, room))
  {
    if cs != [] {
      var init := cs[..|cs| - 1];
      var last := cs[|cs| - 1];
      InRoomIncreasing(init, room);
      var r0 := InRoom(init, room);
      InRoomMembers(init, room);
      forall c | c in r0 ensures c.idx < last.idx {
        var a :| 0 <= a < |init| && init[a] == c;
        assert cs[a] == c;
      }
      if RoomOf(last.dev) == room {
        AppendIncreasing(r0, last);
      }
    }
  }

  lemma AppendIncreasing(r: seq<Card>, c: Card)
    requires Increasing(r) && forall x :: x in r ==> x.idx < c.idx
    ensures Increasing(r + [c])
  {
    forall a, b | 0 <= a < b < |r| + 1 ensures (r + [c])[a].idx < (r + [c])[b].idx {
      if b == |r| { assert r[a] in r; }
    }
  }

  /** The room of every device, in input order. */
  function Rooms(ds: seq<Js>): (rs: seq<string>)
    ensures |rs| == |ds|
  {
    seq(|ds|, j requires 0 <= j < |ds| => RoomOf(ds[j]))
  }

  /** The first position of `room` in `rs`, or `|rs|`. */
  function First(rs: seq<string>, room: string): (n: nat)
    ensures n <= |rs|
  {
    if rs == [] then 0
    else if rs[0] == room then 0
    else 1 + First(rs[1..], room)
  }

  /** No earlier position has the room. */
  lemma {:induction false} FirstMiss(rs: seq<string>, room: string)
    ensures forall j :: 0 <= j < First(rs, room) ==> rs[j] != room
  {
    if rs != [] && rs[0] != room {
      FirstMiss(rs[1..], room);
      assert forall j :: 1 <= j < First(rs, room) ==> rs[j] == rs[1..][j - 1];
    }
  }

  /** Below `|rs|`, the first position does have the room. */
  lemma {:induction false} FirstHit(rs: seq<string>, room: string)
    ensures First(rs, room) < |rs| ==> rs[First(rs, room)] == room
  {
    if rs != [] && rs[0] != room {
      FirstHit(rs[1..], room);
    }
  }

  lemma FirstIs(rs: seq<string>, room: string, i: nat)
    requires i < |rs| && rs[i] == room
    requires forall j :: 0 <= j < i ==> rs[j] != room
    ensures First(rs, room) == i
  {
    FirstHit(rs, room);
    FirstMiss(rs, room);
  }

  function RoomsOf(groups: seq<Group>): (rooms: seq<string>)
    ensures |rooms| == |groups| && forall j :: 0 <= j < |groups| ==> rooms[j] == groups[j].room
  {
    seq(|groups|, j requires 0 <= j < |groups| => groups[j].room)
  }

  /** What the `groups` memo promises: one group per room that occurs, in order of first
      appearance, each holding that room's cards in input order. */
  predicate Grouped(ds: seq<Js>, groups: seq<Group>) {
    (forall g :: g in groups ==> g.items == InRoom(Cards(ds), g.room))
    && (forall i :: 0 <= i < |ds| ==> RoomOf(ds[i]) in RoomsOf(groups))
    && (forall g :: g in groups ==> First(Rooms(ds), g.room) < |ds|)
    && (forall a, b :: 0 <= a < b < |groups| ==> First(Rooms(ds), groups[a].room) < First(Rooms(ds), groups[b].room))
  }

  lemma NoCardsYet(cs: seq<Card>, room: string)
    requires forall c :: c in cs ==> RoomOf(c.dev) != room
    ensures InRoom(cs, room) == []
  {
    InRoomMembers(cs, room);
  }

  lemma InRoomStep(cs: seq<Card>, i: nat, room: string)
    requires i < |cs|
    ensures InRoom(cs[..i + 1], room)
         == InRoom(cs[..i], room) + (if RoomOf(cs[i].dev) == room then [cs[i]] else [])
  {
    assert cs[..i + 1][..i] == cs[..i];
  }

  /** The rooms of `rs` without repeats, in order of first appearance: the keys of a Map
      that is filled in that order. */
  function Distinct(rs: seq<string>): (d: seq<string>)
    ensures |d| <= |rs|
  {
    if rs == [] then []
    else
      var d := Distinct(rs[..|rs| - 1]);
      if rs[|rs| - 1] in d then d else d + [rs[|rs| - 1]]
  }

  /** `Distinct` lists exactly the rooms that occur. */
  lemma {:induction false} DistinctMembers(rs: seq<string>)
    ensures forall k :: k in Distinct(rs) <==> k in rs
  {
    if rs != [] {
      var init := rs[..|rs| - 1];
      DistinctMembers(init);
      assert rs == init + [rs[|rs| - 1]];
    }
  }

  /** Over a prefix of `rs`, `Distinct` lists rooms that first occur inside the prefix, in
      the order of their first occurrence in `rs`. */
  lemma {:induction false} DistinctOrder(rs: seq<string>, n: nat)
    requires n <= |rs|
    ensures forall k :: k in Distinct(rs[..n]) ==> First(rs, k) < n
    ensures var d := Distinct(rs[..n]);
            forall a, b :: 0 <= a < b < |d| ==> First(rs, d[a]) < First(rs, d[b])
  {
    if n > 0 {
      DistinctOrder(rs, n - 1);
      var d := Distinct(rs[..n - 1]);
      var room := rs[n - 1];
      DistinctStep(rs, n - 1);
      if room !in d {
        DistinctMembers(rs[..n - 1]);
        FirstNew(rs, n - 1);
        AppendLater(rs, d, room);
      }
    }
  }

  /** A room absent from the prefix first occurs right after it. */
  lemma FirstNew(rs: seq<string>, i: nat)
    requires i < |rs| && rs[i] !in rs[..i]
    ensures First(rs, rs[i]) == i
  {
    forall j | 0 <= j < i ensures rs[j] != rs[i] {
      assert rs[j] == rs[..i][j];
    }
    FirstIs(rs, rs[i], i);
  }

  /** A key whose first appearance comes after every listed one keeps the order. */
  lemma AppendLater(rs: seq<string>, keys: seq<string>, room: string)
    requires forall a, b :: 0 <= a < b < |keys| ==> First(rs, keys[a]) < First(rs, keys[b])
    requires forall k :: k in keys ==> First(rs, k) < First(rs, room)
    ensures var keys' := keys + [room];
            forall a, b :: 0 <= a < b < |keys'| ==> First(rs, keys'[a]) < First(rs, keys'[b])
  {
    var keys' := keys + [room];
    forall a, b | 0 <= a < b < |keys'| ensures First(rs, keys'[a]) < First(rs, keys'[b]) {
      assert keys'[a] == keys[a];
      if b == |keys| {
        assert keys[a] in keys;
      } else {
        assert keys'[b] == keys[b];
      }
    }
  }

  /** One more room seen: it joins the keys at the end unless it is already there. */
  lemma DistinctStep(rs: seq<string>, i: nat)
    requires i < |rs|
    ensures Distinct(rs[..i + 1])
         == if rs[i] in Distinct(rs[..i]) then Distinct(rs[..i]) else Distinct(rs[..i]) + [rs[i]]
  {
    assert rs[..i + 1][..i] == rs[..i];
  }

  /** Filing device `i`: its room's array gains its card, created empty if the room is new. */
  lemma FileItems(ds: seq<Js>, i: nat, items: map<string, seq<Card>>, items': map<string, seq<Card>>)
    requires i < |ds|
    requires forall k :: k in items <==> k in Rooms(ds)[..i]
    requires forall k :: k in items ==> items[k] == InRoom(Cards(ds)[..i], k)
    requires var room := RoomOf(ds[i]);
             room in items ==> items' == items[room := items[room] + [Card(ds[i], i)]]
    requires var room := RoomOf(ds[i]);
             room !in items ==> items' == items[room := [Card(ds[i], i)]]
    ensures forall k :: k in items' ==> items'[k] == InRoom(Cards(ds)[..i + 1], k)
    ensures forall k :: k in items' <==> k in Rooms(ds)[..i + 1]
  {
    var room := RoomOf(ds[i]);
    var cs := Cards(ds);
    var rs := Rooms(ds);
    if room !in items {
      forall c | c in cs[..i] ensures RoomOf(c.dev) != room {
        var j :| 0 <= j < i && cs[..i][j] == c;
        assert c == Card(ds[j], j) && rs[..i][j] == RoomOf(ds[j]);
      }
      NoCardsYet(cs[..i], room);
    }
    forall k | k in items'
      ensures items'[k] == InRoom(cs[..i + 1], k)
    {
      InRoomStep(cs, i, k);
    }
    SeenStep(rs, i);
  }

  /** The rooms seen after device `i` are those seen before it and its own. */
  lemma SeenStep(rs: seq<string>, i: nat)
    requires i < |rs|
    ensures forall k :: k in rs[..i + 1] <==> k in rs[..i] || k == rs[i]
  {
    PrefixStep(rs, i);
  }

  lemma PrefixStep<T>(s: seq<T>, i: nat)
    requires i < |s|
    ensures s[..i + 1] == s[..i] + [s[i]]
  {
  }

  /** The state of the `forEach` after the first `i` devices: the Map's keys in insertion
      order, and its arrays. */
  ghost predicate Filed(ds: seq<Js>, i: nat, keys: seq<string>, items: map<string, seq<Card>>)
    requires i <= |ds|
  {
    keys == Distinct(Rooms(ds)[..i])
    && (forall k :: k in items <==> k in Rooms(ds)[..i])
    && (forall k :: k in items ==> items[k] == InRoom(Cards(ds)[..i], k))
  }

  /** Filing device `i` under a room already in the Map: the keys stay, its array grows. */
  lemma FileOld(ds: seq<Js>, i: nat, keys: seq<string>, items: map<string, seq<Card>>, items': map<string, seq<Card>>)
    requires i < |ds| && Filed(ds, i, keys, items)
    requires RoomOf(ds[i]) in items
    requires items' == items[RoomOf(ds[i]) := items[RoomOf(ds[i])] + [Card(ds[i], i)]]
    ensures Filed(ds, i + 1, keys, items')
  {
    KeysStep(ds, i, keys, items);
    FileItems(ds, i, items, items');
  }

  /** Filing device `i` under a new room: the room joins the keys with a one-card array. */
  lemma FileNew(ds: seq<Js>, i: nat, keys: seq<string>, items: map<string, seq<Card>>, items': map<string, seq<Card>>)
    requires i < |ds| && Filed(ds, i, keys, items)
    requires RoomOf(ds[i]) !in items
    requires items' == items[RoomOf(ds[i]) := [Card(ds[i], i)]]
    ensures Filed(ds, i + 1, keys + [RoomOf(ds[i])], items')
  {
    KeysStep(ds, i, keys, items);
    FileItems(ds, i, items, items');
  }

  /** `map.set(k, [])` followed by a push holds the one pushed value. */
  lemma PushFresh<K, V>(m: map<K, seq<V>>, k: K, v: V)
    ensures m[k := []][k := m[k := []][k] + [v]] == m[k := [v]]
  {
    assert [] + [v] == [v];
  }

  /** The Map gains a key exactly when the room is new, and at the end. */
  lemma KeysStep(ds: seq<Js>, i: nat, keys: seq<string>, items: map<string, seq<Card>>)
    requires i < |ds| && Filed(ds, i, keys, items)
    ensures Distinct(Rooms(ds)[..i + 1]) == if RoomOf(ds[i]) in items then keys else keys + [RoomOf(ds[i])]
  {
    DistinctMembers(Rooms(ds)[..i]);
    DistinctStep(Rooms(ds), i);
  }

  /** At the end of the `forEach`, the Map's entries are the groups. */
  lemma FiledGroups(ds: seq<Js>, keys: seq<string>, items: map<string, seq<Card>>, groups: seq<Group>)
    requires keys == Distinct(Rooms(ds))
    requires forall k :: k in items <==> k in Rooms(ds)
    requires forall k :: k in items ==> items[k] == InRoom(Cards(ds), k)
    requires forall k :: k in keys ==> k in items
    requires |groups| == |keys| && forall j :: 0 <= j < |keys| ==> groups[j] == Group(keys[j], items[keys[j]])
    ensures Grouped(ds, groups)
  {
    var rs := Rooms(ds);
    DistinctOrder(rs, |ds|);
    assert rs[..|ds|] == rs;
    FiledItems(ds, keys, items, groups);
    FiledCover(ds, keys, groups);
    forall a, b | 0 <= a < b < |groups|
      ensures First(rs, groups[a].room) < First(rs, groups[b].room)
    {
      assert groups[a].room == keys[a] && groups[b].room == keys[b];
    }
  }

  lemma FiledItems(ds: seq<Js>, keys: seq<string>, items: map<string, seq<Card>>, groups: seq<Group>)
    requires keys == Distinct(Rooms(ds))
    requires forall k :: k in items ==> items[k] == InRoom(Cards(ds), k)
    requires forall k :: k in keys ==> k in items
    requires |groups| == |keys| && forall j :: 0 <= j < |keys| ==> groups[j] == Group(keys[j], items[keys[j]])
    ensures forall g :: g in groups ==> g.items == InRoom(Cards(ds), g.room) && First(Rooms(ds), g.room) < |ds|
  {
    var rs := Rooms(ds);
    DistinctOrder(rs, |ds|);
    assert rs[..|ds|] == rs;
    forall g | g in groups ensures g.items == InRoom(Cards(ds), g.room) && First(rs, g.room) < |ds| {
      var j :| 0 <= j < |groups| && groups[j] == g;
      assert keys[j] in keys;
    }
  }

  lemma FiledCover(ds: seq<Js>, keys: seq<string>, groups: seq<Group>)
    requires keys == Distinct(Rooms(ds))
    requires |groups| == |keys| && forall j :: 0 <= j < |keys| ==> groups[j].room == keys[j]
    ensures forall i :: 0 <= i < |ds| ==> RoomOf(ds[i]) in RoomsOf(groups)
  {
    var rs := Rooms(ds);
    DistinctMembers(rs);
    forall i | 0 <= i < |ds|
      ensures RoomOf(ds[i]) in RoomsOf(groups)
    {
      assert rs[i] in rs;
      var j :| 0 <= j < |keys| && keys[j] == RoomOf(ds[i]);
      assert RoomsOf(groups)[j] == RoomOf(ds[i]);
    }
  }

  /** The `groups` memo: a `forEach` that files each card under its room in a Map. */
  method Groups(ds: seq<Js>) returns (groups: seq<Group>)
    ensures Grouped(ds, groups)
  {
    var keys: seq<string> := [];
    var items: map<string, seq<Card>> := map[];
    for i := 0 to |ds|
      invariant Filed(ds, i, keys, items)
    {
      var room := RoomOf(ds[i]);
      ghost var keys0, items0 := keys, items;
      if room !in items {
        keys := keys + [room];
        items := items[room := []];
      }
      items := items[room := items[room] + [Card(ds[i], i)]];
      if room in items0 {
        FileOld(ds, i, keys0, items0, items);
      } else {
        PushFresh(items0, room, Card(ds[i], i));
        FileNew(ds, i, keys0, items0, items);
      }
    }
    assert Rooms(ds)[..|ds|] == Rooms(ds) && Cards(ds)[..|ds|] == Cards(ds);
    DistinctMembers(Rooms(ds));
    groups := seq(|keys|, j requires 0 <= j < |keys| => Group(keys[j], items[keys[j]]));
    FiledGroups(ds, keys, items, groups);
  }

  /** Every device lands in exactly one group: the one for its room. */
  lemma OneGroupEach(ds: seq<Js>, groups: seq<Group>, i: nat)
    requires Grouped(ds, groups) && i < |ds|
    ensures exists a :: 0 <= a < |groups| && Card(ds[i], i) in groups[a].items
    ensures forall a :: 0 <= a < |groups| && Card(ds[i], i) in groups[a].items ==> groups[a].room == RoomOf(ds[i])
    ensures forall a, b :: (0 <= a < |groups| && 0 <= b < |groups| && Card(ds[i], i) in groups[a].items
                            && Card(ds[i], i) in groups[b].items) ==> a == b
  {
    var cs := Cards(ds);
    assert cs[i] == Card(ds[i], i) && cs[i] in cs;
    assert RoomOf(ds[i]) in RoomsOf(groups);
    var a :| 0 <= a < |groups| && RoomsOf(groups)[a] == RoomOf(ds[i]);
    assert groups[a] in groups;
    InRoomMembers(cs, groups[a].room);
    assert Card(ds[i], i) in groups[a].items;
    forall a | 0 <= a < |groups| && Card(ds[i], i) in groups[a].items
      ensures groups[a].room == RoomOf(ds[i])
    {
      assert groups[a] in groups;
      InRoomMembers(cs, groups[a].room);
    }
    forall a, b | 0 <= a < |groups| && 0 <= b < |groups| && Card(ds[i], i) in groups[a].items
                  && Card(ds[i], i) in groups[b].items
      ensures a == b
    {
      RoomsDistinct(ds, groups, a, b);
    }
  }

  /** A card is selected when its `__idx` is the selected index. */
  predicate Selected(c: Card, selectedIndex: int) {
    c.idx == selectedIndex
  }

  /** At most one card in the whole gallery is selected. */
  lemma AtMostOneSelected(ds: seq<Js>, groups: seq<Group>, sel: int, a: nat, p: nat, b: nat, q: nat)
    requires Grouped(ds, groups)
    requires a < |groups| && p < |groups[a].items| && b < |groups| && q < |groups[b].items|
    requires Selected(groups[a].items[p], sel) && Selected(groups[b].items[q], sel)
    ensures a == b && p == q
  {
    var c := groups[a].items[p];
    var c' := groups[b].items[q];
    GroupCard(ds, groups, a, p);
    GroupCard(ds, groups, b, q);
    RoomsDistinct(ds, groups, a, b);
    assert groups[a] in groups;
    InRoomIncreasing(Cards(ds), groups[a].room);
    IncreasingUnique(groups[a].items, p, q);
  }

  /** A card of group `a` is the card of its device, filed under that device's room. */
  lemma GroupCard(ds: seq<Js>, groups: seq<Group>, a: nat, p: nat)
    requires Grouped(ds, groups) && a < |groups| && p < |groups[a].items|
    ensures var c := groups[a].items[p];
            c.idx < |ds| && c == Card(ds[c.idx], c.idx) && RoomOf(ds[c.idx]) == groups[a].room
  {
    assert groups[a] in groups;
    var c := groups[a].items[p];
    InRoomMembers(Cards(ds), groups[a].room);
    assert c in groups[a].items;
    var k :| 0 <= k < |Cards(ds)| && Cards(ds)[k] == c;
  }

  lemma RoomsDistinct(ds: seq<Js>, groups: seq<Group>, a: nat, b: nat)
    requires Grouped(ds, groups) && a < |groups| && b < |groups| && groups[a].room == groups[b].room
    ensures a == b
  {
    if a < b || b < a { }
  }

  lemma IncreasingUnique(cs: seq<Card>, p: nat, q: nat)
    requires Increasing(cs) && p < |cs| && q < |cs| && cs[p].idx == cs[q].idx
    ensures p == q
  {
    if p < q || q < p { }
  }

  /** The delete button is disabled exactly when there are no devices, which is exactly
      when there is no group to show. */
  predicate DeleteDisabled(ds: seq<Js>) {
    |ds| == 0
  }

  lemma DisabledIffNoGroups(ds: seq<Js>, groups: seq<Group>)
    requires Grouped(ds, groups)
    ensures DeleteDisabled(ds) <==> groups == []
  {
    if groups != [] {
      GroupHasDevice(ds, groups, 0);
    }
    if |ds| > 0 {
      assert RoomOf(ds[0]) in RoomsOf(groups);
    }
  }

  lemma GroupHasDevice(ds: seq<Js>, groups: seq<Group>, j: nat)
    requires Grouped(ds, groups) && j < |groups|
    ensures First(Rooms(ds), groups[j].room) < |ds|
  {
    assert groups[j] in groups;
  }

  // ---------------------------------------------------------------------------
  // Rows of two

  function Flatten<T>(rows: seq<seq<T>>): seq<T> {
    if rows == [] then [] else rows[0] + Flatten(rows[1..])
  }

  lemma {:induction false} FlattenAppend<T>(rows: seq<seq<T>>, r: seq<T>)
    ensures Flatten(rows + [r]) == Flatten(rows) + r
  {
    if rows != [] {
      assert (rows + [r])[1..] == rows[1..] + [r];
      FlattenAppend(rows[1..], r);
    } else {
      assert Flatten([r]) == r + Flatten<T>([]);
    }
  }

  /** `for (let i = 0; i < n; i += 2) arr.push(xs.slice(i, i + 2))`: rows of two, the
      last one possibly of one, which put back together give the list. */
  method Rows<T>(xs: seq<T>) returns (rows: seq<seq<T>>)
    ensures Flatten(rows) == xs
    ensures forall r :: r in rows ==> 1 <= |r| <= 2
    ensures forall k :: 0 <= k < |rows| - 1 ==> |rows[k]| == 2
    ensures |rows| == (|xs| + 1) / 2
  {
    rows := [];
    var i := 0;
    while i < |xs|
      invariant i % 2 == 0 && i <= |xs| + 1
      invariant Flatten(rows) == xs[..if i <= |xs| then i else |xs|]
      invariant |rows| == i / 2
      invariant forall r :: r in rows ==> 1 <= |r| <= 2
      invariant forall k :: 0 <= k < |rows| - 1 ==> |rows[k]| == 2
      invariant i <= |xs| ==> forall k :: 0 <= k < |rows| ==> |rows[k]| == 2
      decreases |xs| - i
    {
      var row := xs[i..if i + 2 <= |xs| then i + 2 else |xs|];
      FlattenAppend(rows, row);
      assert xs[..i] + row == xs[..if i + 2 <= |xs| then i + 2 else |xs|];
      rows := rows + [row];
      i := i + 2;
    }
    assert xs[..|xs|] == xs;
  }
}
