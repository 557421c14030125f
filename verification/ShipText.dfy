/** The text form of a ship in Editors.java: what saving writes and what the scanner of LoadFrame reads. */
module ShipText {
  import opened Basics

  datatype Coord = Coord(x: int, y: int)

  /** A ship; the seven lists of points on it are those of the sections in LISTS. */
  datatype Ship = Ship(name: string, author: string, hull: seq<Coord>, engine: Option<Coord>, mainGun: Option<Coord>,
                       lists: seq<seq<Coord>>)

  /** The sections of lists that a ship may have, and how many points each can hold. */
  const LISTS: seq<string> := ["LG:", "RG:", "LR:", "RR:", "LL:", "RL:", "MR:"]
  const LIMITS: seq<nat> := [3, 3, 3, 3, 3, 3, 4]
  const HULL_LIMIT: nat := 24

  const HEAD: string := "xpilot.shipShape: "

  // ---------------------------------------------------------------- writing

  predicate IsDigit(c: char) { '0' <= c <= '9' }

  function Digit(d: nat): (c: char)
    requires d < 10
    ensures IsDigit(c) && Value(c) == d
  {
    ('0' as int + d) as char
  }

  function Value(c: char): (v: int)
    requires IsDigit(c)
    ensures 0 <= v < 10
  {
    c as int - '0' as int
  }

  /** A number as Java writes it. */
  function Digits(n: nat): string {
    if n < 10 then [Digit(n)] else Digits(n / 10) + [Digit(n % 10)]
  }

  function Number(n: int): string {
    if n < 0 then "-" + Digits(-n) else Digits(n)
  }

  function Pair(c: Coord): string {
    Number(c.x) + "," + Number(c.y)
  }

  function Pairs(list: seq<Coord>): string {
    if list == [] then "" else " " + Pair(list[0]) + Pairs(list[1..])
  }

  /** A section: its tag, and its text up to the closing bracket. */
  datatype Section = Section(tag: string, body: string)

  function Text(s: Section): string {
    "(" + s.tag + s.body + ")"
  }

  function TextOf(secs: seq<Section>): string {
    if secs == [] then "" else Text(secs[0]) + TextOf(secs[1..])
  }

  function Optional(present: bool, tag: string, body: string): seq<Section> {
    if present then [Section(tag, body)] else []
  }

  function ListSections(lists: seq<seq<Coord>>, k: nat): seq<Section>
    requires |lists| == |LISTS|
    decreases |LISTS| - k
  {
    if k >= |LISTS| then [] else Optional(lists[k] != [], LISTS[k], Pairs(lists[k])) + ListSections(lists, k + 1)
  }

  function PointSection(tag: string, p: Option<Coord>): seq<Section> {
    match p
    case None => []
    case Some(c) => [Section(tag, " " + Pair(c))]
  }

  /** The sections of a ship in the order in which they are written. */
  function Sections(s: Ship): seq<Section>
    requires |s.lists| == |LISTS|
  {
    Optional(s.name != "", "NM:", " " + s.name) + Optional(s.author != "", "AU:", " " + s.author)
    + [Section("SH:", Pairs(s.hull))]
    + PointSection("EN:", s.engine) + PointSection("MG:", s.mainGun)
    + ListSections(s.lists, 0)
  }

  function ShipString(s: Ship): string
    requires |s.lists| == |LISTS|
  {
    HEAD + TextOf(Sections(s))
  }

  // ---------------------------------------------------------------- an example

  const FLY: Ship := Ship("Fly", "Me", [Coord(15, 0), Coord(-8, 10)], Some(Coord(-8, 0)), Some(Coord(14, 1)),
                          [[Coord(1, 2)], [Coord(3, 4)], [Coord(5, 6)], [Coord(7, 8)], [Coord(9, 1)], [Coord(2, 3)],
                           [Coord(4, 5)]])

  lemma ShortDigits(n: nat)
    requires n < 100
    ensures Digits(n) == if n < 10 then [Digit(n)] else [Digit(n / 10), Digit(n % 10)]
  {
  }

  lemma FlyPairs()
    ensures Pairs(FLY.hull) == " 15,0 -8,10" && Pair(FLY.engine.value) == "-8,0" && Pair(FLY.mainGun.value) == "14,1"
  {
    ShortDigits(15);
    ShortDigits(0);
    ShortDigits(8);
    ShortDigits(10);
    ShortDigits(14);
    ShortDigits(1);
    assert Pair(Coord(15, 0)) == "15,0" && Pair(Coord(-8, 10)) == "-8,10";
    assert Pair(Coord(-8, 0)) == "-8,0" && Pair(Coord(14, 1)) == "14,1";
    PairsTwo(Coord(15, 0), Coord(-8, 10));
  }

  lemma PairsTwo(a: Coord, b: Coord)
    ensures Pairs([a]) == " " + Pair(a) && Pairs([a, b]) == " " + Pair(a) + (" " + Pair(b))
  {
    hide Pair;
    assert [a][1..] == [] && [a, b][1..] == [b];
    assert Pairs([]) == "";
    assert Pairs([a]) == " " + Pair(a) + Pairs([]);
    assert Pairs([b]) == " " + Pair(b) + Pairs([]);
  }

  lemma ListText(x: nat, y: nat, tag: string, text: string)
    requires x < 10 && y < 10 && text == "(" + tag + " " + [Digit(x)] + "," + [Digit(y)] + ")"
    ensures Text(Section(tag, Pairs([Coord(x, y)]))) == text
  {
    PairsTwo(Coord(x, y), Coord(0, 0));
    ShortDigits(x);
    ShortDigits(y);
  }

  function FlyLists(): seq<Section> {
    var l := FLY.lists;
    [Section("LG:", Pairs(l[0])), Section("RG:", Pairs(l[1])), Section("LR:", Pairs(l[2])),
     Section("RR:", Pairs(l[3])), Section("LL:", Pairs(l[4])), Section("RL:", Pairs(l[5])),
     Section("MR:", Pairs(l[6]))]
  }

  lemma ListSectionsFrom(lists: seq<seq<Coord>>, k: nat)
    requires |lists| == |LISTS| && k < |LISTS| && lists[k] != []
    ensures ListSections(lists, k) == [Section(LISTS[k], Pairs(lists[k]))] + ListSections(lists, k + 1)
  {
  }

  lemma FlyListSections()
    ensures ListSections(FLY.lists, 0) == FlyLists()
  {
    hide Pairs;
    var l := FLY.lists;
    assert ListSections(l, 7) == [];
    ListSectionsFrom(l, 6);
    ListSectionsFrom(l, 5);
    ListSectionsFrom(l, 4);
    ListSectionsFrom(l, 3);
    ListSectionsFrom(l, 2);
    ListSectionsFrom(l, 1);
    ListSectionsFrom(l, 0);
  }

  lemma TextCons(sec: Section, secs: seq<Section>)
    ensures TextOf([sec] + secs) == Text(sec) + TextOf(secs)
  {
    assert ([sec] + secs)[1..] == secs;
  }

  lemma FlyListsText()
    ensures TextOf(FlyLists()) == "(LG: 1,2)" + ("(RG: 3,4)" + ("(LR: 5,6)" + ("(RR: 7,8)" + ("(LL: 9,1)"
                                  + ("(RL: 2,3)" + "(MR: 4,5)")))))
  {
    hide Text, Pairs, TextOf;
    var l := FLY.lists;
    ListText(1, 2, "LG:", "(LG: 1,2)");
    ListText(3, 4, "RG:", "(RG: 3,4)");
    ListText(5, 6, "LR:", "(LR: 5,6)");
    ListText(7, 8, "RR:", "(RR: 7,8)");
    ListText(9, 1, "LL:", "(LL: 9,1)");
    ListText(2, 3, "RL:", "(RL: 2,3)");
    ListText(4, 5, "MR:", "(MR: 4,5)");
    var s6 := [Section("MR:", Pairs(l[6]))];
    LastText(s6[0]);
    var s5, s4 := [Section("RL:", Pairs(l[5]))] + s6, [Section("LL:", Pairs(l[4]))];
    TextCons(Section("RL:", Pairs(l[5])), s6);
    TextCons(s4[0], s5);
    var s3 := [Section("RR:", Pairs(l[3]))];
    TextCons(s3[0], s4 + s5);
    var s2 := [Section("LR:", Pairs(l[2]))];
    TextCons(s2[0], s3 + (s4 + s5));
    var s1 := [Section("RG:", Pairs(l[1]))];
    TextCons(s1[0], s2 + (s3 + (s4 + s5)));
    var s0 := [Section("LG:", Pairs(l[0]))];
    TextCons(s0[0], s1 + (s2 + (s3 + (s4 + s5))));
    assert FlyLists() == s0 + (s1 + (s2 + (s3 + (s4 + s5))));
  }

  lemma LastText(sec: Section)
    ensures TextOf([sec]) == Text(sec)
  {
    assert [sec][1..] == [] && TextOf([]) == "";
  }

  lemma FlySections()
    ensures Sections(FLY) == [Section("NM:", " Fly")] + ([Section("AU:", " Me")] + ([Section("SH:", Pairs(FLY.hull))]
              + ([Section("EN:", " " + Pair(FLY.engine.value))] + ([Section("MG:", " " + Pair(FLY.mainGun.value))]
                 + FlyLists()))))
  {
    hide Pairs, Pair, ListSections, FlyLists;
    FlyListSections();
    var l := ListSections(FLY.lists, 0);
    assert " " + FLY.name == " Fly" && " " + FLY.author == " Me";
    assert Sections(FLY) == [Section("NM:", " Fly")] + [Section("AU:", " Me")] + [Section("SH:", Pairs(FLY.hull))]
                          + [Section("EN:", " " + Pair(FLY.engine.value))]
                          + [Section("MG:", " " + Pair(FLY.mainGun.value))] + l;
  }

  /** The text of a ship with all sections. */
  lemma FlyText()
    ensures ShipString(FLY) == "xpilot.shipShape: " + ("(NM: Fly)" + ("(AU: Me)" + ("(SH: 15,0 -8,10)"
                               + ("(EN: -8,0)" + ("(MG: 14,1)" + ("(LG: 1,2)" + ("(RG: 3,4)" + ("(LR: 5,6)"
                               + ("(RR: 7,8)" + ("(LL: 9,1)" + ("(RL: 2,3)" + "(MR: 4,5)")))))))))))
  {
    hide Pairs, Pair, FlyLists, Sections, Text, TextOf;
    FlySections();
    FlyPairs();
    FlyListsText();
    var nm, au := Section("NM:", " Fly"), Section("AU:", " Me");
    var sh, en := Section("SH:", " 15,0 -8,10"), Section("EN:", " -8,0");
    var mg := Section("MG:", " 14,1");
    FlyTexts();
    TextCons(mg, FlyLists());
    TextCons(en, [mg] + FlyLists());
    TextCons(sh, [en] + ([mg] + FlyLists()));
    TextCons(au, [sh] + ([en] + ([mg] + FlyLists())));
    TextCons(nm, [au] + ([sh] + ([en] + ([mg] + FlyLists()))));
    assert " " + "-8,0" == " -8,0" && " " + "14,1" == " 14,1";
  }

  lemma FlyTexts()
    ensures Text(Section("NM:", " Fly")) == "(NM: Fly)" && Text(Section("AU:", " Me")) == "(AU: Me)"
    ensures Text(Section("SH:", " 15,0 -8,10")) == "(SH: 15,0 -8,10)"
    ensures Text(Section("EN:", " -8,0")) == "(EN: -8,0)" && Text(Section("MG:", " 14,1")) == "(MG: 14,1)"
  {
  }

  // ---------------------------------------------------------------- scanning

  /** Java's indexOf, from p on; -1 if there is none. */
  function Find(s: string, t: string, p: nat): (i: int)
    ensures i == -1 || (p <= i && i + |t| <= |s| && s[i..i + |t|] == t)
    decreases |s| - p
  {
    if p + |t| > |s| then -1 else if s[p..p + |t|] == t then p else Find(s, t, p + 1)
  }

  /** t is what follows at place p of s. */
  predicate Starts(s: string, p: int, t: string) {
    0 <= p && p + |t| <= |s| && s[p..p + |t|] == t
  }

  lemma {:induction false} FindFirst(s: string, t: string, p: nat, i: nat)
    requires p <= i && Starts(s, i, t) && forall q :: p <= q < i ==> !Starts(s, q, t)
    ensures Find(s, t, p) == i
    decreases i - p
  {
    if p < i {
      assert !Starts(s, p, t);
      FindFirst(s, t, p + 1, i);
    }
  }

  lemma {:induction false} FindNone(s: string, t: string, p: nat)
    requires forall q :: p <= q ==> !Starts(s, q, t)
    ensures Find(s, t, p) == -1
    decreases |s| - p
  {
    if p + |t| <= |s| {
      assert !Starts(s, p, t);
      FindNone(s, t, p + 1);
    }
  }

  /** After skipping spaces; None if the text ends. */
  function SkipSpaces(s: string, p: nat): (r: Option<nat>)
    ensures r.Some? ==> p <= r.value < |s| && s[r.value] != ' '
    decreases |s| - p
  {
    if p >= |s| then None else if s[p] == ' ' then SkipSpaces(s, p + 1) else Some(p)
  }

  /** A place in the text and the number last read. */
  datatype Cursor = Cursor(p: nat, temp: int)

  /** Up to two digits with a sign; without a digit the number read before stays, with its sign changed
      as for a digit.  None if the text ends. */
  function ReadNumber(s: string, p: nat, temp: int): (r: Option<Cursor>)
    ensures r.Some? ==> p <= r.value.p < |s|
  {
    if p >= |s| then None else
      var negative := s[p] == '-';
      var p1 := if negative then p + 1 else p;
      if p1 >= |s| then None else
        var t1: int := if IsDigit(s[p1]) then -Value(s[p1]) else temp;
        var p2 := if IsDigit(s[p1]) then p1 + 1 else p1;
        if p2 >= |s| then None else
          var t2: int := if IsDigit(s[p2]) then 10 * t1 - Value(s[p2]) else t1;
          var p3 := if IsDigit(s[p2]) then p2 + 1 else p2;
          if p3 >= |s| then None else Some(Cursor(p3, if negative then t2 else -t2))
  }

  datatype PairRead = PairRead(c: Coord, p: nat, temp: int)

  /** A pair of numbers, with a comma and spaces between them. */
  function ReadPair(s: string, p: nat, temp: int): (r: Option<PairRead>)
    ensures r.Some? ==> p <= r.value.p < |s|
  {
    match ReadNumber(s, p, temp)
    case None => None
    case Some(x) =>
      match SkipSpaces(s, x.p)
      case None => None
      case Some(q) =>
        match SkipSpaces(s, if s[q] == ',' then q + 1 else q)
        case None => None
        case Some(q') =>
          match ReadNumber(s, q', x.temp)
          case None => None
          case Some(y) => Some(PairRead(Coord(x.temp, y.temp), y.p, y.temp))
  }

  /** All pairs up to the closing bracket.  None if the text ends before it. */
  function ScanFrom(s: string, p: nat, temp: int): Option<seq<Coord>>
    decreases |s| - p
  {
    if p >= |s| then None
    else if s[p] == '-' || IsDigit(s[p]) then
      match ReadPair(s, p, temp)
      case None => None
      case Some(r) =>
        if s[r.p] == ')' then Some([r.c]) else Prepend(r.c, ScanFrom(s, r.p + 1, r.temp))
    else if s[p] == ')' then Some([])
    else ScanFrom(s, p + 1, temp)
  }

  function Prepend(c: Coord, rest: Option<seq<Coord>>): Option<seq<Coord>> {
    if rest.None? then None else Some([c] + rest.value)
  }

  // Reading what was written.

  predicate TwoDigits(n: int) { -99 <= n <= 99 }

  predicate SmallCoord(c: Coord) { TwoDigits(c.x) && TwoDigits(c.y) }

  predicate SmallList(list: seq<Coord>) { forall i :: 0 <= i < |list| ==> SmallCoord(list[i]) }

  lemma DigitsShape(n: nat)
    requires n <= 99
    ensures n < 10 ==> Digits(n) == [Digit(n)]
    ensures 10 <= n ==> Digits(n) == [Digit(n / 10), Digit(n % 10)]
  {
    if 10 <= n {
      assert Digits(n / 10) == [Digit(n / 10)];
    }
  }

  lemma StartsAt(s: string, p: int, t: string, k: int)
    requires Starts(s, p, t) && 0 <= k < |t|
    ensures 0 <= p + k < |s| && s[p + k] == t[k]
  {
    assert s[p..p + |t|][k] == t[k];
  }

  lemma StartsSplit(s: string, p: int, t: string, u: string)
    requires Starts(s, p, t + u)
    ensures Starts(s, p, t) && Starts(s, p + |t|, u)
  {
    var w := s[p..p + |t| + |u|];
    assert w == t + u;
    assert s[p..p + |t|] == w[..|t|];
    assert s[p + |t|..p + |t| + |u|] == w[|t|..];
  }

  /** A number of at most two digits is read back, if no digit follows. */
  lemma NumberReads(s: string, p: nat, n: int, temp: int, c: char)
    requires TwoDigits(n) && Starts(s, p, Number(n) + [c]) && !IsDigit(c)
    ensures ReadNumber(s, p, temp) == Some(Cursor(p + |Number(n)|, n)) && s[p + |Number(n)|] == c
    ensures s[p] == '-' || IsDigit(s[p])
  {
    hide Digits;
    var size := if n < 0 then -n else n;
    DigitsShape(size);
    var t := Number(n) + [c];
    StartsAt(s, p, t, 0);
    StartsAt(s, p, t, 1);
    StartsAt(s, p, t, |t| - 1);
    if 2 < |t| {
      StartsAt(s, p, t, 2);
    }
    Decimal(size);
  }

  lemma Decimal(n: nat)
    ensures n == 10 * (n / 10) + n % 10
  {
  }

  lemma PairReads(s: string, p: nat, c: Coord, temp: int, next: char)
    requires SmallCoord(c) && Starts(s, p, Pair(c) + [next]) && !IsDigit(next)
    ensures ReadPair(s, p, temp) == Some(PairRead(c, p + |Pair(c)|, c.y)) && s[p + |Pair(c)|] == next
    ensures s[p] == '-' || IsDigit(s[p])
  {
    hide Number, ReadNumber;
    var a, b := Number(c.x), Number(c.y);
    assert Pair(c) + [next] == (a + [',']) + (b + [next]);
    StartsSplit(s, p, a + [','], b + [next]);
    NumberReads(s, p, c.x, temp, ',');
    NumberReads(s, p + |a| + 1, c.y, c.x, next);
    SkipNone(s, p + |a|);
    SkipNone(s, p + |a| + 1);
  }

  lemma SkipNone(s: string, p: nat)
    requires p < |s| && s[p] != ' '
    ensures SkipSpaces(s, p) == Some(p)
  {
  }

  /** A list of pairs is read back, from its first digit on. */
  lemma {:induction false} PairsRead(s: string, p: nat, list: seq<Coord>, temp: int)
    requires list != [] && SmallList(list) && Starts(s, p, Pairs(list)[1..] + ")")
    ensures ScanFrom(s, p, temp) == Some(list)
    decreases |list|
  {
    hide ReadPair, Pair;
    var c, rest := list[0], list[1..];
    assert SmallCoord(c);
    if rest == [] {
      assert Pairs(list)[1..] + ")" == Pair(c) + [')'];
      PairReads(s, p, c, temp, ')');
      assert list == [c];
    } else {
      assert Pairs(rest)[0] == ' ';
      assert Pairs(list)[1..] + ")" == (Pair(c) + [' ']) + (Pairs(rest)[1..] + ")");
      StartsSplit(s, p, Pair(c) + [' '], Pairs(rest)[1..] + ")");
      PairReads(s, p, c, temp, ' ');
      PairsRead(s, p + |Pair(c)| + 1, rest, c.y);
      assert list == [c] + rest;
    }
  }

  /** Scanning the body of a list section gives the list. */
  lemma BodyReads(s: string, p: nat, list: seq<Coord>)
    requires SmallList(list) && list != [] && Starts(s, p, Pairs(list) + ")")
    ensures ScanFrom(s, p, 0) == Some(list)
  {
    hide Pair, Pairs, ReadPair;
    PairsHead(list);
    StartsSplit(s, p, " ", Pairs(list)[1..] + ")");
    StartsAt(s, p, " ", 0);
    PairsRead(s, p + 1, list, 0);
  }

  lemma PairsHead(list: seq<Coord>)
    requires list != []
    ensures Pairs(list) != "" && Pairs(list)[0] == ' '
    ensures Pairs(list) + ")" == " " + (Pairs(list)[1..] + ")")
  {
  }
}
