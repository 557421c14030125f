/** Saving and loading in Editors.java: the save branch of Editors.mouseUp and LoadFrame.action. */
module ShipFrames {
  import opened Basics
  import opened ShipText
  import opened ShipRoundTrip

  // ---------------------------------------------------------------- saving

  lemma {:induction false} PairsSnoc(list: seq<Coord>, c: Coord)
    ensures Pairs(list + [c]) == Pairs(list) + " " + Pair(c)
  {
    hide Pair;
    if list == [] {
      assert Pairs([]) == "" && [] + [c] == [c];
    } else {
      assert (list + [c])[1..] == list[1..] + [c];
      PairsSnoc(list[1..], c);
    }
  }

  /** The loops that write the points of a section. */
  method WritePairs(str0: string, list: seq<Coord>) returns (str: string)
    ensures str == str0 + Pairs(list)
  {
    hide Pair;
    str := str0;
    var i := 0;
    NoPairs();
    while i < |list|
      invariant 0 <= i <= |list| && str == str0 + Pairs(list[..i])
    {
      PairsSnoc(list[..i], list[i]);
      assert list[..i + 1] == list[..i] + [list[i]];
      str := str + " " + Pair(list[i]);
      i := i + 1;
    }
    assert list[..i] == list;
  }

  lemma NoPairs()
    ensures Pairs([]) == ""
  {
  }

  /** A list section, if the list is not empty. */
  method WriteList(str0: string, tag: string, list: seq<Coord>) returns (str: string)
    ensures str == str0 + TextOf(Optional(list != [], tag, Pairs(list)))
  {
    str := str0;
    if |list| != 0 {
      str := str + "(" + tag;
      str := WritePairs(str, list);
      str := str + ")";
    }
    OptionalText(list != [], tag, Pairs(list));
  }

  lemma OptionalText(present: bool, tag: string, body: string)
    ensures TextOf(Optional(present, tag, body)) == if present then "(" + tag + body + ")" else ""
  {
    assert TextOf([]) == "";
  }

  lemma {:induction false} TextAppend(a: seq<Section>, b: seq<Section>)
    ensures TextOf(a + b) == TextOf(a) + TextOf(b)
  {
    if a == [] {
      assert a + b == b;
    } else {
      assert (a + b)[1..] == a[1..] + b;
      TextAppend(a[1..], b);
    }
  }

  lemma ListsText(lists: seq<seq<Coord>>, k: nat)
    requires |lists| == |LISTS| && k < |LISTS|
    ensures TextOf(ListSections(lists, k))
         == TextOf(Optional(lists[k] != [], LISTS[k], Pairs(lists[k]))) + TextOf(ListSections(lists, k + 1))
  {
    hide TextOf, Pairs;
    TextAppend(Optional(lists[k] != [], LISTS[k], Pairs(lists[k])), ListSections(lists, k + 1));
  }

  /** One list section written, the later ones to come. */
  method WriteListAt(str0: string, lists: seq<seq<Coord>>, k: nat) returns (str: string)
    requires |lists| == |LISTS| && k < |LISTS|
    ensures str + TextOf(ListSections(lists, k + 1)) == str0 + TextOf(ListSections(lists, k))
  {
    hide TextOf, Pairs;
    str := WriteList(str0, LISTS[k], lists[k]);
    ListsText(lists, k);
  }

  lemma AllButLists(s: Ship)
    requires |s.lists| == |LISTS|
    ensures ShipString(s) ==
            HEAD + TextOf(Optional(s.name != "", "NM:", " " + s.name))
                + TextOf(Optional(s.author != "", "AU:", " " + s.author))
            + TextOf(Optional(true, "SH:", Pairs(s.hull))) + TextOf(PointSection("EN:", s.engine))
            + TextOf(PointSection("MG:", s.mainGun)) + TextOf(ListSections(s.lists, 0))
  {
    hide TextOf, Pairs, Pair, ListSections;
    var a, b := Optional(s.name != "", "NM:", " " + s.name), Optional(s.author != "", "AU:", " " + s.author);
    var c, d, e := Optional(true, "SH:", Pairs(s.hull)), PointSection("EN:", s.engine), PointSection("MG:", s.mainGun);
    var l := ListSections(s.lists, 0);
    assert Sections(s) == a + b + c + d + e + l;
    TextAppend(a + b + c + d + e, l);
    TextAppend(a + b + c + d, e);
    TextAppend(a + b + c, d);
    TextAppend(a + b, c);
    TextAppend(a, b);
  }

  lemma PointText(tag: string, p: Option<Coord>)
    ensures TextOf(PointSection(tag, p)) == if p.Some? then "(" + tag + " " + Pair(p.value) + ")" else ""
  {
    hide Pair;
    assert TextOf([]) == "";
  }

  /** A name, if it is not empty. */
  method WriteName(str0: string, tag: string, name: string) returns (str: string)
    ensures str == str0 + TextOf(Optional(name != "", tag, " " + name))
  {
    str := str0;
    if |name| != 0 {
      str := str + "(" + tag + " " + name + ")";
    }
    OptionalText(name != "", tag, " " + name);
  }

  method WriteHull(str0: string, hull: seq<Coord>) returns (str: string)
    ensures str == str0 + TextOf(Optional(true, "SH:", Pairs(hull)))
  {
    hide Pairs;
    str := str0 + "(SH:";
    str := WritePairs(str, hull);
    str := str + ")";
    OptionalText(true, "SH:", Pairs(hull));
  }

  /** The engine or the main gun, if there is one. */
  method WritePoint(str0: string, tag: string, p: Option<Coord>) returns (str: string)
    ensures str == str0 + TextOf(PointSection(tag, p))
  {
    hide Pair;
    str := str0;
    if p.Some? {
      str := str + "(" + tag + " " + Pair(p.value) + ")";
    }
    PointText(tag, p);
  }

  /** The save branch: the text of the ship, or an error if it has no hull. */
  method Save(s: Ship) returns (text: string)
    requires |s.lists| == |LISTS|
    ensures text == if s.hull == [] then "Error, no hull" else ShipString(s)
  {
    hide TextOf, Pairs, Pair, ListSections, ShipString, Optional, PointSection;
    var str := "xpilot.shipShape: ";
    str := WriteName(str, "NM:", s.name);
    str := WriteName(str, "AU:", s.author);
    str := WriteHull(str, s.hull);
    str := WritePoint(str, "EN:", s.engine);
    str := WritePoint(str, "MG:", s.mainGun);
    AllButLists(s);
    str := WriteListAt(str, s.lists, 0);
    str := WriteListAt(str, s.lists, 1);
    str := WriteListAt(str, s.lists, 2);
    str := WriteListAt(str, s.lists, 3);
    str := WriteListAt(str, s.lists, 4);
    str := WriteListAt(str, s.lists, 5);
    str := WriteListAt(str, s.lists, 6);
    ListsEnd(s.lists);
    if |s.hull| == 0 {
      text := "Error, no hull";
    } else {
      text := str;
    }
  }

  lemma ListsEnd(lists: seq<seq<Coord>>)
    requires |lists| == |LISTS|
    ensures TextOf(ListSections(lists, 7)) == ""
  {
  }

  // ---------------------------------------------------------------- scanning

  /** while (pointer == ' ') j++ */
  method Skip(text: string, p0: nat) returns (ok: bool, p: nat)
    ensures SkipSpaces(text, p0) == if ok then Some(p) else None
  {
    p := p0;
    while p < |text| && text[p] == ' '
      invariant p0 <= p && SkipSpaces(text, p) == SkipSpaces(text, p0)
    {
      p := p + 1;
    }
    ok := p < |text|;
  }

  /** A number with its sign, as the scanner reads it. */
  method NumberAt(text: string, p0: nat, temp0: int) returns (ok: bool, p: nat, temp: int)
    ensures ReadNumber(text, p0, temp0) == if ok then Some(Cursor(p, temp)) else None
  {
    ok, p, temp := false, p0, temp0;
    var negative := false;
    if p >= |text| {
      return;
    }
    if text[p] == '-' {
      negative := true;
      p := p + 1;
      if p >= |text| {
        return;
      }
    }
    if IsDigit(text[p]) {
      temp := -Value(text[p]);
      p := p + 1;
      if p >= |text| {
        return;
      }
    }
    if IsDigit(text[p]) {
      temp := 10 * temp - Value(text[p]);
      p := p + 1;
      if p >= |text| {
        return;
      }
    }
    if !negative {
      temp := -temp;
    }
    ok := true;
  }

  /** A pair of numbers, as the scanner reads it. */
  method PairAt(text: string, p0: nat, temp0: int) returns (ok: bool, c: Coord, p: nat, temp: int)
    ensures ReadPair(text, p0, temp0) == if ok then Some(PairRead(c, p, temp)) else None
  {
    hide ReadNumber, SkipSpaces;
    c := Coord(0, 0);
    ok, p, temp := NumberAt(text, p0, temp0);
    if !ok {
      return;
    }
    var x := temp;
    ok, p := Skip(text, p);
    if !ok {
      return;
    }
    if text[p] == ',' {
      p := p + 1;
    }
    ok, p := Skip(text, p);
    if !ok {
      return;
    }
    ok, p, temp := NumberAt(text, p, temp);
    c := Coord(x, temp);
  }

  /** What is scanned before and after a place, put together. */
  function Concat(list: seq<Coord>, rest: Option<seq<Coord>>): Option<seq<Coord>> {
    if rest.None? then None else Some(list + rest.value)
  }

  lemma ConcatNothing(rest: Option<seq<Coord>>)
    ensures Concat([], rest) == rest
  {
    if rest.Some? {
      assert [] + rest.value == rest.value;
    }
  }

  /** The scan passes over a pair. */
  lemma StepPair(text: string, p: nat, temp: int, list: seq<Coord>)
    requires p < |text| && (text[p] == '-' || IsDigit(text[p]))
    ensures match ReadPair(text, p, temp)
            case None => ScanFrom(text, p, temp) == None
            case Some(r) =>
              Concat(list, ScanFrom(text, p, temp)) ==
              if text[r.p] == ')' then Some(list + [r.c]) else Concat(list + [r.c], ScanFrom(text, r.p + 1, r.temp))
  {
    hide ReadPair;
    match ReadPair(text, p, temp)
    case None =>
    case Some(r) =>
      if text[r.p] != ')' {
        var rest := ScanFrom(text, r.p + 1, r.temp);
        if rest.Some? {
          assert list + ([r.c] + rest.value) == list + [r.c] + rest.value;
        }
      }
  }

  /** The scan passes over any other character, or ends at the closing bracket. */
  lemma StepOther(text: string, p: nat, temp: int, list: seq<Coord>)
    requires p < |text| && !(text[p] == '-' || IsDigit(text[p]))
    ensures Concat(list, ScanFrom(text, p, temp)) 
         == if text[p] == ')' then Some(list) else Concat(list, ScanFrom(text, p + 1, temp))
  {
    assert list + [] == list;
  }

  lemma ScanEnds(text: string, p: nat, temp: int)
    requires p >= |text|
    ensures ScanFrom(text, p, temp) == None
  {
  }

  /** Scan a list of points into an array.  The scan fails if the text ends, or the array is full. */
  method ScanList(text: string, start: nat, a: array<Coord>) returns (ok: bool, k: nat)
    modifies a
    ensures ok <==> ScanFrom(text, start, 0).Some? && |ScanFrom(text, start, 0).value| <= a.Length
    ensures ok ==> k == |ScanFrom(text, start, 0).value| && a[..k] == ScanFrom(text, start, 0).value
    ensures k <= a.Length && a[k..] == old(a[k..])
  {
    hide ReadPair, ScanFrom;
    ok, k := false, 0;
    var p, temp, pointer := start, 0, ' ';
    ghost var all := ScanFrom(text, start, 0);
    ConcatNothing(all);
    assert a[..0] == [];
    while pointer != ')'
      invariant k <= a.Length && a[k..] == old(a[k..])
      invariant pointer != ')' ==> all == Concat(a[..k], ScanFrom(text, p, temp))
      invariant pointer == ')' ==> all == Some(a[..k])
      decreases |text| - p
    {
      if p >= |text| {
        ScanEnds(text, p, temp);
        return;
      }
      pointer := text[p];
      if pointer == '-' || IsDigit(pointer) {
        StepPair(text, p, temp, a[..k]);
        var good, c, q, t := PairAt(text, p, temp);
        if !good || k == a.Length {
          return;
        }
        ghost var list := a[..k];
        assert old(a[k + 1..]) == old(a[k..])[1..] == a[k..][1..];
        a[k] := c;
        k := k + 1;
        assert a[..k] == list + [c];
        p, temp, pointer := q, t, text[q];
      } else {
        StepOther(text, p, temp, a[..k]);
      }
      p := p + 1;
    }
    ok := true;
  }

  function Last(list: seq<Coord>): Option<Coord> {
    if list == [] then None else Some(list[|list| - 1])
  }

  /** Scan a section of one point: every pair overwrites the one before. */
  method ScanPoint(text: string, start: nat, has0: bool, c0: Coord) returns (ok: bool, has: bool, c: Coord)
    ensures ok <==> ScanFrom(text, start, 0).Some?
    ensures ok ==> var last := Last(ScanFrom(text, start, 0).value);
                   if last.Some? then has && c == last.value else has == has0 && c == c0
  {
    hide ReadPair, ScanFrom;
    ok, has, c := false, has0, c0;
    var p, temp, pointer := start, 0, ' ';
    ghost var all := ScanFrom(text, start, 0);
    ghost var list: seq<Coord> := [];
    ConcatNothing(all);
    while pointer != ')'
      invariant if list == [] then has == has0 && c == c0 else has && c == list[|list| - 1]
      invariant pointer != ')' ==> all == Concat(list, ScanFrom(text, p, temp))
      invariant pointer == ')' ==> all == Some(list)
      decreases |text| - p
    {
      if p >= |text| {
        ScanEnds(text, p, temp);
        return;
      }
      pointer := text[p];
      if pointer == '-' || IsDigit(pointer) {
        StepPair(text, p, temp, list);
        var good, read, q, t := PairAt(text, p, temp);
        if !good {
          return;
        }
        c, has := read, true;
        list := list + [read];
        p, temp, pointer := q, t, text[q];
      } else {
        StepOther(text, p, temp, list);
      }
      p := p + 1;
    }
    ok := true;
  }

  // ---------------------------------------------------------------- loading

  /** Whether a text holds a name section. */
  predicate HasName(text: string, tag: string) {
    var i := Find(text, tag, 0) + 3;
    i > 5 && Find(text, ")", i) > 0
  }

  /** What a pass of the loader makes of the ship it holds: what the text has replaces what was there. */
  function Overlay(s: Ship, text: string): Option<Ship>
    requires |s.lists| == |LISTS|
  {
    var hull, gun, engine, lists :=
      ListIn(text, "SH:", HULL_LIMIT), PointIn(text, "MG:"), PointIn(text, "EN:"), OverlayLists(s.lists, text, 0);
    if hull.None? || gun.None? || engine.None? || lists.None? then None
    else Some(Ship(OverlayName(s.name, text, "NM:"), OverlayName(s.author, text, "AU:"),
                   OverlayList(s.hull, hull.value), OverlayPoint(s.engine, engine.value),
                   OverlayPoint(s.mainGun, gun.value),
                   lists.value))
  }

  function OverlayName(n: string, text: string, tag: string): string {
    if HasName(text, tag) then NameIn(text, tag) else n
  }

  function OverlayList(list: seq<Coord>, read: seq<Coord>): seq<Coord> {
    if read == [] then list else read
  }

  function OverlayPoint(p: Option<Coord>, read: Option<Coord>): Option<Coord> {
    if read.None? then p else read
  }

  function OverlayLists(lists: seq<seq<Coord>>, text: string, k: nat): Option<seq<seq<Coord>>>
    requires |lists| == |LISTS|
    decreases |LISTS| - k
  {
    if k >= |LISTS| then Some([]) else
      match ListIn(text, LISTS[k], LIMITS[k])
      case None => None
      case Some(list) =>
        match OverlayLists(lists, text, k + 1)
        case None => None
        case Some(rest) => Some([OverlayList(lists[k], list)] + rest)
  }

  function NoShip(): Ship {
    Ship("", "", [], None, None, [[], [], [], [], [], [], []])
  }

  lemma {:induction false} OverlayNoLists(text: string, k: nat)
    requires k <= |LISTS|
    ensures OverlayLists(NoShip().lists, text, k) == ListsIn(text, k)
    decreases |LISTS| - k
  {
    hide ListIn;
    if k < |LISTS| {
      OverlayNoLists(text, k + 1);
    }
  }

  lemma {:induction false} ListsInLength(text: string, k: nat)
    requires k <= |LISTS|
    ensures ListsIn(text, k).Some? ==> |ListsIn(text, k).value| == |LISTS| - k
    decreases |LISTS| - k
  {
    hide ListIn;
    if k < |LISTS| {
      ListsInLength(text, k + 1);
    }
  }

  lemma {:induction false} OverlayAgain(text: string, k: nat, lists: seq<seq<Coord>>)
    requires k <= |LISTS| == |lists| && ListsIn(text, k) == Some(lists[k..])
    ensures OverlayLists(lists, text, k) == Some(lists[k..])
    decreases |LISTS| - k
  {
    hide ListIn;
    if k < |LISTS| {
      ListsInLength(text, k + 1);
      assert ListsIn(text, k).value[1..] == lists[k + 1..];
      OverlayAgain(text, k + 1, lists);
      assert [lists[k]] + lists[k + 1..] == lists[k..];
    }
  }

  /** A pass over an empty ship gives the ship in the text, and a second pass changes nothing, whatever the
      text. */
  lemma SecondPassSame(text: string)
    ensures Overlay(NoShip(), text) == ShipIn(text)
    ensures ShipIn(text).Some? ==>
              |ShipIn(text).value.lists| == |LISTS| && Overlay(ShipIn(text).value, text) == ShipIn(text)
  {
    hide ListIn, PointIn, ListsIn, Find, Trim, OverlayLists;
    OverlayNoLists(text, 0);
    ListsInLength(text, 0);
    if ShipIn(text).Some? {
      var lists := ShipIn(text).value.lists;
      assert lists[0..] == lists;
      OverlayAgain(text, 0, lists);
    }
  }

  function PointOf(has: bool, c: Coord): Option<Coord> {
    if has then Some(c) else None
  }

  class LoadFrame {
    const hull: array<Coord>
    const lists: seq<array<Coord>>
    var hullPoints: nat
    var points: seq<nat>
    var mainGun: Coord
    var hasMainGun: bool
    var engine: Coord
    var hasEngine: bool
    var shipname: string
    var author: string

    ghost predicate Valid()
      reads this
    {
      && hull.Length == HULL_LIMIT && hullPoints <= HULL_LIMIT
      && |lists| == |points| == |LISTS|
      && (forall k :: 0 <= k < |LISTS| ==> lists[k] != hull && lists[k].Length == LIMITS[k] && points[k] <= LIMITS[k])
      && forall j, k :: 0 <= j < k < |LISTS| ==> lists[j] != lists[k]
    }

    constructor ()
      ensures Valid()
    {
      hull := new Coord[HULL_LIMIT];
      var a0, a1, a2, a3, a4, a5, a6 :=
        new Coord[3], new Coord[3], new Coord[3], new Coord[3], new Coord[3], new Coord[3], new Coord[4];
      lists := [a0, a1, a2, a3, a4, a5, a6];
      hullPoints, points := 0, [0, 0, 0, 0, 0, 0, 0];
      mainGun, hasMainGun, engine, hasEngine := Coord(0, 0), false, Coord(0, 0), false;
      shipname, author := "", "";
    }

    /** The points that list k holds. */
    ghost function List(k: nat): seq<Coord>
      requires Valid() && k < |LISTS|
      reads this, lists[k]
    {
      lists[k][..points[k]]
    }

    /** The ship that the frame holds. */
    ghost function Current(): (s: Ship)
      requires Valid()
      reads this, hull, lists
      ensures |s.lists| == |LISTS| && forall k :: 0 <= k < |LISTS| ==> s.lists[k] == List(k)
    {
      Ship(shipname, author, hull[..hullPoints], PointOf(hasEngine, engine), PointOf(hasMainGun, mainGun),
           seq(|LISTS|, k requires 0 <= k < |LISTS| && Valid() reads this, lists => List(k)))
    }

    /** One list section of the loader. */
    method LoadList(text: string, k: nat) returns (ok: bool)
      requires Valid() && k < |LISTS|
      modifies this`points, lists[k]
      ensures Valid()
      ensures ok <==> ListIn(text, LISTS[k], LIMITS[k]).Some?
      ensures ok ==> List(k) == OverlayList(old(List(k)), ListIn(text, LISTS[k], LIMITS[k]).value)
      ensures forall j :: 0 <= j < |LISTS| && j != k ==> List(j) == old(List(j))
    {
      hide ScanFrom, Find;
      ok := true;
      var i := Find(text, LISTS[k], 0);
      if i >= 0 {
        var n;
        ok, n := ScanList(text, i + 3, lists[k]);
        if ok && n > 0 {
          points := points[k := n];
        }
      }
    }

    /** How far the seven list sections have been loaded. */
    ghost predicate ListsDone(text: string, before: seq<seq<Coord>>, n: nat)
      requires Valid() && |before| == |LISTS| && n <= |LISTS|
      reads this, lists
    {
      && (forall j :: 0 <= j < n ==> ListIn(text, LISTS[j], LIMITS[j]).Some?
                                     && List(j) == OverlayList(before[j], ListIn(text, LISTS[j], LIMITS[j]).value))
      && (forall j :: n <= j < |LISTS| ==> List(j) == before[j])
    }

    method LoadNext(text: string, n: nat, ghost before: seq<seq<Coord>>) returns (ok: bool)
      requires Valid() && n < |LISTS| == |before| && ListsDone(text, before, n)
      modifies this`points, lists[n]
      ensures Valid() && (ok <==> ListIn(text, LISTS[n], LIMITS[n]).Some?)
      ensures ok ==> ListsDone(text, before, n + 1)
    {
      hide ListIn;
      ok := LoadList(text, n);
    }

    /** The sections LG to MR of the loader. */
    method LoadLists(text: string, ghost before: seq<seq<Coord>>) returns (ok: bool)
      requires Valid() && |before| == |LISTS| && ListsDone(text, before, 0)
      modifies this`points, lists
      ensures Valid() && (ok <==> OverlayLists(before, text, 0).Some?)
      ensures ok ==> ListsDone(text, before, |LISTS|)
    {
      hide ListIn, ListsDone, OverlayLists, OverlayList;
      ok := LoadNext(text, 0, before);
      if ok { ok := LoadNext(text, 1, before); }
      if ok { ok := LoadNext(text, 2, before); }
      if ok { ok := LoadNext(text, 3, before); }
      if ok { ok := LoadNext(text, 4, before); }
      if ok { ok := LoadNext(text, 5, before); }
      if ok { ok := LoadNext(text, 6, before); }
      AllOrNone(before, text, 0);
      if ok {
        AllRead(text, before);
      }
    }

    lemma AllRead(text: string, before: seq<seq<Coord>>)
      requires Valid() && |before| == |LISTS| && ListsDone(text, before, |LISTS|)
      ensures forall j :: 0 <= j < |LISTS| ==> ListIn(text, LISTS[j], LIMITS[j]).Some?
    {
    }

    /** The hull section of the loader. */
    method LoadHull(text: string) returns (ok: bool)
      requires Valid()
      modifies this`hullPoints, hull
      ensures Valid() && (ok <==> ListIn(text, "SH:", HULL_LIMIT).Some?)
      ensures ok ==> hull[..hullPoints] == OverlayList(old(hull[..hullPoints]), ListIn(text, "SH:", HULL_LIMIT).value)
    {
      hide ScanFrom, Find;
      ok := true;
      var i := Find(text, "SH:", 0);
      if i >= 0 {
        var n;
        ok, n := ScanList(text, i + 3, hull);
        if ok && n > 0 {
          hullPoints := n;
        }
      }
    }

    /** One pass of the loader over the text. */
    method Pass(text: string) returns (ok: bool)
      requires Valid()
      modifies this, hull, lists
      ensures Valid() && (ok <==> Overlay(old(Current()), text).Some?)
      ensures ok ==> Overlay(old(Current()), text) == Some(Current())
    {
      hide ListIn, PointIn, OverlayLists, OverlayList, OverlayPoint, OverlayName, ListsDone;
      ghost var before := Current();
      LoadNames(text);
      ok := LoadHull(text);
      if !ok {
        return;
      }
      ok := LoadGun(text);
      if !ok {
        return;
      }
      NothingDone(text, before.lists);
      ok := LoadLists(text, before.lists);
      if !ok {
        return;
      }
      AllDone(text, before.lists);
      ghost var now := Current().lists;
      ok := LoadEngine(text);
      assert Current().lists == now;
    }

    /** The main gun section of the loader. */
    method LoadGun(text: string) returns (ok: bool)
      modifies this`mainGun, this`hasMainGun
      ensures ok <==> PointIn(text, "MG:").Some?
      ensures ok ==>
              PointOf(hasMainGun, mainGun)
                  == OverlayPoint(old(PointOf(hasMainGun, mainGun)), PointIn(text, "MG:").value)
    {
      hide ScanFrom, Find;
      ok := true;
      var i := Find(text, "MG:", 0);
      if i >= 0 {
        ok, hasMainGun, mainGun := ScanPoint(text, i + 3, hasMainGun, mainGun);
      }
    }

    /** The engine section of the loader. */
    method LoadEngine(text: string) returns (ok: bool)
      modifies this`engine, this`hasEngine
      ensures ok <==> PointIn(text, "EN:").Some?
      ensures ok ==>
              PointOf(hasEngine, engine) == OverlayPoint(old(PointOf(hasEngine, engine)), PointIn(text, "EN:").value)
    {
      hide ScanFrom, Find;
      ok := true;
      var i := Find(text, "EN:", 0);
      if i >= 0 {
        ok, hasEngine, engine := ScanPoint(text, i + 3, hasEngine, engine);
      }
    }

    /** The name and author sections of the loader. */
    method LoadNames(text: string)
      modifies this`shipname, this`author
      ensures shipname == OverlayName(old(shipname), text, "NM:") && author == OverlayName(old(author), text, "AU:")
    {
      hide Find, Trim;
      var i := Find(text, "NM:", 0) + 3;
      var ii := Find(text, ")", i);
      if i > 5 && ii > 0 {
        shipname := Trim(text[i..ii]);
      }
      i := Find(text, "AU:", 0) + 3;
      ii := Find(text, ")", i);
      if i > 5 && ii > 0 {
        author := Trim(text[i..ii]);
      }
    }

    lemma NothingDone(text: string, before: seq<seq<Coord>>)
      requires Valid() && |before| == |LISTS| && forall k :: 0 <= k < |LISTS| ==> List(k) == before[k]
      ensures ListsDone(text, before, 0)
    {
    }

    lemma AllDone(text: string, before: seq<seq<Coord>>)
      requires Valid() && |before| == |LISTS| && ListsDone(text, before, |LISTS|)
      ensures OverlayLists(before, text, 0) == Some(Current().lists)
    {
      hide ListIn, OverlayLists, OverlayList;
      OverlaysEach(before, text, 0, Current().lists);
      assert Current().lists[0..] == Current().lists;
    }

    /** The load button: forget the ship, and pass over the text twice.  It succeeds exactly on texts that
        stand for a ship, and then holds that ship. */
    method Load(text: string) returns (ok: bool)
      requires Valid()
      modifies this, hull, lists
      ensures Valid() && (ok <==> ShipIn(text).Some?)
      ensures ok ==> ShipIn(text) == Some(Current())
    {
      hide Overlay, ShipIn;
      hullPoints, points := 0, [0, 0, 0, 0, 0, 0, 0];
      hasMainGun, hasEngine := false, false;
      shipname, author := "", "";
      assert Current().lists == NoShip().lists;
      SecondPassSame(text);
      ok := Pass(text);
      if ok {
        ok := Pass(text);
      }
    }
  }

  lemma {:induction false} AllOrNone(lists: seq<seq<Coord>>, text: string, k: nat)
    requires |lists| == |LISTS| && k <= |LISTS|
    ensures OverlayLists(lists, text, k).Some? <==> forall j :: k <= j < |LISTS| ==>
            ListIn(text, LISTS[j], LIMITS[j]).Some?
    decreases |LISTS| - k
  {
    hide ListIn;
    if k < |LISTS| {
      AllOrNone(lists, text, k + 1);
    }
  }

  lemma {:induction false} OverlaysEach(lists: seq<seq<Coord>>, text: string, k: nat, now: seq<seq<Coord>>)
    requires |lists| == |now| == |LISTS| && k <= |LISTS|
    requires forall j :: k <= j < |LISTS| ==> ListIn(text, LISTS[j], LIMITS[j]).Some?
                                              && now[j] == OverlayList(lists[j],
                                                                ListIn(text, LISTS[j], LIMITS[j]).value)
    ensures OverlayLists(lists, text, k) == Some(now[k..])
    decreases |LISTS| - k
  {
    hide ListIn, OverlayList;
    if k < |LISTS| {
      OverlaysEach(lists, text, k + 1, now);
      assert now[k..] == [now[k]] + now[k + 1..];
    } else {
      assert now[k..] == [];
    }
  }
}
