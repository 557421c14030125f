/** Saving a ship as text and loading it again gives the same ship. */
module ShipRoundTrip {
  import opened Basics
  import opened ShipText

  // ---------------------------------------------------------------- what loading means

  predicate Blank(c: char) { c <= ' ' }

  /** Java's trim. */
  function Trim(s: string): string {
    if s != "" && Blank(s[0]) then Trim(s[1..])
    else if s != "" && Blank(s[|s| - 1]) then Trim(s[..|s| - 1])
    else s
  }

  /** The name in a section of the text; empty if there is none. */
  function NameIn(text: string, tag: string): string {
    var i := Find(text, tag, 0) + 3;
    var ii := if i < 0 then -1 else Find(text, ")", i);
    if i > 5 && ii > 0 then Trim(text[i..ii]) else ""
  }

  /** The pairs in a section of the text; None if the scanner fails. */
  function ListIn(text: string, tag: string, limit: nat): Option<seq<Coord>> {
    var i := Find(text, tag, 0);
    if i < 0 then Some([]) else
      match ScanFrom(text, i + 3, 0)
      case None => None
      case Some(list) => if |list| <= limit then Some(list) else None
  }

  /** A section of one point keeps the last pair in it. */
  function PointIn(text: string, tag: string): Option<Option<Coord>> {
    var i := Find(text, tag, 0);
    if i < 0 then Some(None) else
      match ScanFrom(text, i + 3, 0)
      case None => None
      case Some(list) => Some(if list == [] then None else Some(list[|list| - 1]))
  }

  function ListsIn(text: string, k: nat): Option<seq<seq<Coord>>>
    decreases |LISTS| - k
  {
    if k >= |LISTS| then Some([]) else
      match ListIn(text, LISTS[k], LIMITS[k])
      case None => None
      case Some(list) =>
        match ListsIn(text, k + 1)
        case None => None
        case Some(rest) => Some([list] + rest)
  }

  /** The ship that a text stands for; None if the loader fails on it. */
  function ShipIn(text: string): Option<Ship> {
    var hull, gun, engine, lists :=
      ListIn(text, "SH:", HULL_LIMIT), PointIn(text, "MG:"), PointIn(text, "EN:"), ListsIn(text, 0);
    if hull.None? || gun.None? || engine.None? || lists.None? then None
    else Some(Ship(NameIn(text, "NM:"), NameIn(text, "AU:"), hull.value, engine.value, gun.value, lists.value))
  }

  // ---------------------------------------------------------------- finding the sections

  predicate Upper(c: char) { 'A' <= c <= 'Z' }

  predicate IsTag(t: string) { |t| == 3 && Upper(t[0]) && Upper(t[1]) && t[2] == ':' }

  const TAGS: seq<string> := ["NM:", "AU:", "SH:", "EN:", "MG:", "LG:", "RG:", "LR:", "RR:", "LL:", "RL:", "MR:"]

  predicate NoBracket(s: string) {
    forall k :: 0 <= k < |s| ==> s[k] != ')'
  }

  /** A section text as it is written: it starts with a space, and holds no closing bracket. */
  predicate BodyOk(body: string) {
    body != "" && body[0] == ' ' && NoBracket(body)
  }

  ghost predicate SectionsOk(secs: seq<Section>) {
    forall k :: 0 <= k < |secs| ==> IsTag(secs[k].tag) && BodyOk(secs[k].body)
  }

  /** What follows the first t in s. */
  function After(s: string, t: string): Option<string> {
    var k := Find(s, t, 0);
    if k < 0 then None else Some(s[k + |t|..])
  }

  /** Where t is found first in TextOf(secs); -1 if it is not found. */
  function TagPlace(secs: seq<Section>, t: string): int {
    if secs == [] then -1
    else if secs[0].tag == t then 1
    else if Find(secs[0].body, t, 0) >= 0 then 4 + Find(secs[0].body, t, 0)
    else if TagPlace(secs[1..], t) < 0 then -1 else |Text(secs[0])| + TagPlace(secs[1..], t)
  }

  /** What follows it, up to the bracket of that section. */
  function Lookup(secs: seq<Section>, t: string): Option<string> {
    if secs == [] then None
    else if secs[0].tag == t then Some(secs[0].body)
    else if After(secs[0].body, t).Some? then After(secs[0].body, t)
    else Lookup(secs[1..], t)
  }

  lemma {:induction false} LookupPlace(secs: seq<Section>, t: string)
    ensures 0 <= TagPlace(secs, t) <==> Lookup(secs, t).Some?
  {
    if secs != [] {
      LookupPlace(secs[1..], t);
    }
  }

  lemma {:induction false} FindAtMost(s: string, t: string, p: nat, q: nat)
    requires p <= q && Starts(s, q, t)
    ensures 0 <= Find(s, t, p) <= q
    decreases q - p
  {
    if p < q {
      FindAtMost(s, t, p + 1, q);
    }
  }

  /** A tag starts in a section only where the section has its own, or inside its text. */
  lemma TagInSection(sec: Section, rest: string, t: string, q: nat)
    requires IsTag(t) && IsTag(sec.tag) && BodyOk(sec.body)
    requires Starts(Text(sec) + rest, q, t) && q < |Text(sec)|
    ensures (q == 1 && sec.tag == t) || Starts(sec.body, q - 4, t)
  {
    hide NoBracket;
    var s := Text(sec) + rest;
    StartsAt(s, q, t, 0);
    StartsAt(s, q, t, 1);
    StartsAt(s, q, t, 2);
    SectionChars(sec, rest);
    InBody(sec, rest, t, q);
    if !(q == 1 && sec.tag == t) && !Starts(sec.body, q - 4, t) {
      assert false;
    }
  }

  lemma SectionChars(sec: Section, rest: string)
    requires IsTag(sec.tag) && sec.body != ""
    ensures var s := Text(sec) + rest;
            && s[0] == '(' && s[1..4] == sec.tag && s[4] == sec.body[0] && s[4 + |sec.body|] == ')'
            && |Text(sec)| == 5 + |sec.body|
  {
  }

  lemma InBody(sec: Section, rest: string, t: string, q: nat)
    requires IsTag(sec.tag) && |t| == 3 && Starts(Text(sec) + rest, q, t)
    ensures 4 <= q && q + 3 <= 4 + |sec.body| ==> Starts(sec.body, q - 4, t)
  {
    var s := Text(sec) + rest;
    assert s[4..4 + |sec.body|] == sec.body;
    if 4 <= q && q + 3 <= 4 + |sec.body| {
      assert sec.body[q - 4..q - 1] == s[q..q + 3];
    }
  }

  lemma {:induction false} FirstTag(secs: seq<Section>, t: string, q: nat)
    requires SectionsOk(secs) && IsTag(t) && Starts(TextOf(secs), q, t)
    ensures 0 <= TagPlace(secs, t) <= q
  {
    hide Find, Starts, Text, BodyOk;
    if secs == [] {
      NothingStarts(q, t);
    } else {
      NotAtBracket(secs, t);
      var n := |Text(secs[0])|;
      if q < n {
        TagInSection(secs[0], TextOf(secs[1..]), t, q);
        if Starts(secs[0].body, q - 4, t) {
          StartsFrom(secs[0].body, q - 4, t);
          FindAtMost(secs[0].body, t, 0, q - 4);
        }
      } else {
        StartsLater(Text(secs[0]), TextOf(secs[1..]), q, t);
        FirstTag(secs[1..], t, q - n);
        FindInside(secs[0].body, t);
        SectionSize(secs[0]);
      }
    }
  }

  lemma NothingStarts(q: int, t: string)
    requires IsTag(t)
    ensures !Starts("", q, t)
  {
  }

  lemma StartsFrom(s: string, p: int, t: string)
    requires Starts(s, p, t)
    ensures 0 <= p
  {
  }

  lemma FindInside(s: string, t: string)
    ensures Find(s, t, 0) + |t| <= |s| || Find(s, t, 0) == -1
  {
  }

  lemma SectionSize(sec: Section)
    ensures |Text(sec)| == 2 + |sec.tag| + |sec.body|
  {
  }

  lemma NotAtBracket(secs: seq<Section>, t: string)
    requires IsTag(t) && secs != []
    ensures !Starts(TextOf(secs), 0, t)
  {
    assert TextOf(secs)[0] == '(';
    if Starts(TextOf(secs), 0, t) {
      StartsAt(TextOf(secs), 0, t, 0);
      assert false;
    }
  }

  lemma StartsLater(a: string, b: string, q: nat, t: string)
    requires |a| <= q
    ensures Starts(a + b, q, t) <==> Starts(b, q - |a|, t)
  {
    if q + |t| <= |a + b| {
      assert (a + b)[q..q + |t|] == b[q - |a|..q - |a| + |t|];
    }
  }

  lemma {:induction false} TagThere(secs: seq<Section>, t: string)
    requires SectionsOk(secs) && IsTag(t) && 0 <= TagPlace(secs, t)
    ensures Lookup(secs, t).Some? && Starts(TextOf(secs), TagPlace(secs, t), t + Lookup(secs, t).value + ")")
  {
    hide Find, Starts, BodyOk;
    if secs[0].tag == t || Find(secs[0].body, t, 0) >= 0 {
      TagThereFirst(secs[0], TextOf(secs[1..]), t);
    } else {
      TagThere(secs[1..], t);
      StartsLater(Text(secs[0]), TextOf(secs[1..]), |Text(secs[0])| + TagPlace(secs[1..], t),
                  t + Lookup(secs[1..], t).value + ")");
    }
  }

  lemma TagThereFirst(sec: Section, rest: string, t: string)
    requires IsTag(t) && IsTag(sec.tag) && (sec.tag == t || Find(sec.body, t, 0) >= 0)
    ensures sec.tag == t ==> Starts(Text(sec) + rest, 1, t + sec.body + ")")
    ensures sec.tag != t ==>
              var k := Find(sec.body, t, 0); Starts(Text(sec) + rest, 4 + k, t + sec.body[k + 3..] + ")")
  {
    hide Find, Starts, IsTag, Text;
    TagSize(t);
    TagSize(sec.tag);
    if sec.tag == t {
      OwnTagThere(sec, rest);
    } else {
      InnerTagThere(sec, rest, t, Find(sec.body, t, 0));
    }
  }

  lemma OwnTagThere(sec: Section, rest: string)
    ensures Starts(Text(sec) + rest, 1, sec.tag + sec.body + ")")
  {
    hide Starts;
    Embedded("(", sec.tag + sec.body + ")", rest);
    assert Text(sec) + rest == "(" + (sec.tag + sec.body + ")") + rest;
  }

  lemma InnerTagThere(sec: Section, rest: string, t: string, k: nat)
    requires |t| == |sec.tag| == 3 && k + 3 <= |sec.body| && sec.body[k..k + 3] == t
    ensures Starts(Text(sec) + rest, 4 + k, t + sec.body[k + 3..] + ")")
  {
    hide Starts;
    var head, u := "(" + sec.tag + sec.body[..k], t + sec.body[k + 3..] + ")";
    assert sec.body == sec.body[..k] + t + sec.body[k + 3..];
    assert Text(sec) + rest == head + u + rest;
    Embedded(head, u, rest);
  }

  lemma TagSize(t: string)
    requires IsTag(t)
    ensures |t| == 3
  {
  }

  lemma Embedded(a: string, u: string, b: string)
    ensures Starts(a + u + b, |a|, u)
  {
    assert (a + u + b)[|a|..|a| + |u|] == u;
  }

  /** No tag starts in the head. */
  lemma NotInHead(rest: string, t: string, q: nat)
    requires IsTag(t) && q < |HEAD|
    ensures !Starts(HEAD + rest, q, t)
  {
    HeadChars(q);
    if Starts(HEAD + rest, q, t) {
      StartsAt(HEAD + rest, q, t, 0);
      StartsAt(HEAD + rest, q, t, 1);
      assert false;
    }
  }

  lemma HeadChars(q: nat)
    requires q < |HEAD|
    ensures !Upper(HEAD[q]) || (q + 1 < |HEAD| && !Upper(HEAD[q + 1]))
  {
  }

  /** The search for a tag finds the first section that has it as its tag or in its text, and nothing if
      there is none. */
  lemma FindTag(secs: seq<Section>, t: string)
    requires SectionsOk(secs) && IsTag(t)
    ensures var s := HEAD + TextOf(secs); var i := Find(s, t, 0);
            match Lookup(secs, t)
            case None => i == -1
            case Some(body) => |HEAD| <= i && Starts(s, i + 3, body + ")")
  {
    hide TextOf, TagPlace, Lookup;
    LookupPlace(secs, t);
    var s, place := HEAD + TextOf(secs), TagPlace(secs, t);
    forall q: nat | Starts(s, q, t)
      ensures 0 <= place && |HEAD| + place <= q
    {
      if q < |HEAD| {
        NotInHead(TextOf(secs), t, q);
      } else {
        StartsLater(HEAD, TextOf(secs), q, t);
        FirstTag(secs, t, q - |HEAD|);
      }
    }
    if 0 <= place {
      TagThere(secs, t);
      var u := Lookup(secs, t).value + ")";
      assert t + Lookup(secs, t).value + ")" == t + u;
      StartsLater(HEAD, TextOf(secs), |HEAD| + place, t + u);
      StartsSplit(s, |HEAD| + place, t, u);
      FindFirst(s, t, 0, |HEAD| + place);
    } else {
      FindNone(s, t, 0);
    }
  }

  // ---------------------------------------------------------------- what is found for each tag

  /** Characters of coordinates. */
  predicate Plain(c: char) { IsDigit(c) || c == '-' || c == ',' || c == ' ' }

  predicate AllPlain(s: string) { forall k :: 0 <= k < |s| ==> Plain(s[k]) }

  lemma {:induction false} DigitsPlain(n: nat)
    ensures AllPlain(Digits(n))
  {
    if 10 <= n {
      DigitsPlain(n / 10);
    }
  }

  lemma PairPlain(c: Coord)
    ensures AllPlain(" " + Pair(c))
  {
    hide Digits;
    DigitsPlain(if c.x < 0 then -c.x else c.x);
    DigitsPlain(if c.y < 0 then -c.y else c.y);
    AppendPlain(Number(c.x), ",");
    AppendPlain(Number(c.x) + ",", Number(c.y));
    AppendPlain(" ", Pair(c));
  }

  lemma AppendPlain(a: string, b: string)
    requires AllPlain(a) && AllPlain(b)
    ensures AllPlain(a + b)
  {
  }

  lemma {:induction false} PairsPlain(list: seq<Coord>)
    ensures AllPlain(Pairs(list))
  {
    hide Pair;
    if list != [] {
      PairPlain(list[0]);
      PairsPlain(list[1..]);
      AppendPlain(" " + Pair(list[0]), Pairs(list[1..]));
    }
  }

  /** A text without letters has no tag in it. */
  lemma PlainHasNoTag(body: string, t: string)
    requires AllPlain(body) && IsTag(t)
    ensures After(body, t) == None
  {
    forall q
      ensures !Starts(body, q, t)
    {
      if Starts(body, q, t) {
        StartsAt(body, q, t, 2);
        assert false;
      }
    }
    FindNone(body, t, 0);
  }

  lemma PlainBodyOk(body: string)
    requires AllPlain(body) && body != "" && body[0] == ' '
    ensures BodyOk(body)
  {
  }

  /** The space before a name does not matter. */
  lemma AfterSpace(n: string, t: string)
    requires IsTag(t)
    ensures After(" " + n, t) == After(n, t)
  {
    var body := " " + n;
    forall q: nat
      ensures 0 < q ==> (Starts(body, q, t) <==> Starts(n, q - 1, t))
    {
      if 0 < q {
        StartsLater(" ", n, q, t);
      }
    }
    if Starts(body, 0, t) {
      StartsAt(body, 0, t, 0);
    }
    var k := Find(n, t, 0);
    if k < 0 {
      forall q: nat | Starts(body, q, t)
        ensures false
      {
        FindAtMost(n, t, 0, q - 1);
      }
      FindNone(body, t, 0);
    } else {
      forall q: nat | q < k + 1
        ensures !Starts(body, q, t)
      {
        if 0 < q {
          FindLeast(n, t, 0, q - 1);
        }
      }
      FindFirst(body, t, 0, k + 1);
      FindInside(n, t);
      SpaceDropped(n, k + 3);
    }
  }

  lemma SpaceDropped(n: string, k: nat)
    requires k <= |n|
    ensures (" " + n)[k + 1..] == n[k..]
  {
  }

  /** s without k characters at the front and l at the back. */
  ghost predicate Within(s: string, k: nat, l: nat, r: string) {
    k + l <= |s| && r == s[k..|s| - l]
  }

  ghost predicate NoBlankEnds(r: string) {
    r == "" || (!Blank(r[0]) && !Blank(r[|r| - 1]))
  }

  /** Trimming drops the blanks at both ends of s and nothing else. */
  lemma {:induction false} TrimDrops(s: string) returns (k: nat, l: nat)
    ensures Within(s, k, l, Trim(s)) && NoBlankEnds(Trim(s))
    ensures forall i :: 0 <= i < k || |s| - l <= i < |s| ==> Blank(s[i])
  {
    if s != "" && Blank(s[0]) {
      k, l := TrimDrops(s[1..]);
      k := k + 1;
      assert Trim(s) == s[1..][k - 1..|s| - 1 - l];
      forall i | 0 <= i < k || |s| - l <= i < |s|
        ensures Blank(s[i])
      {
        assert i == 0 || s[i] == s[1..][i - 1];
      }
    } else if s != "" && Blank(s[|s| - 1]) {
      k, l := TrimDrops(s[..|s| - 1]);
      l := l + 1;
      assert Trim(s) == s[..|s| - 1][k..|s| - l];
      forall i | 0 <= i < k || |s| - l <= i < |s|
        ensures Blank(s[i])
      {
        assert i == |s| - 1 || s[i] == s[..|s| - 1][i];
      }
    } else {
      k, l := 0, 0;
    }
  }

  /** So the result is the only part of s that starts and ends without a blank, with blanks around it. */
  lemma TrimOnly(s: string, k: nat, l: nat, r: string)
    requires Within(s, k, l, r) && NoBlankEnds(r)
    requires forall i :: 0 <= i < k || |s| - l <= i < |s| ==> Blank(s[i])
    ensures Trim(s) == r
  {
    hide Trim, Blank;
    var k', l' := TrimDrops(s);
    var t := Trim(s);
    if r != "" {
      assert s[k] == r[0] && s[|s| - l - 1] == r[|r| - 1];
      assert k' <= k && l' <= l;
    }
    if t != "" {
      assert s[k'] == t[0] && s[|s| - l' - 1] == t[|t| - 1];
      assert k <= k' && l <= l';
    }
  }

  lemma {:induction false} TrimSpace(n: string)
    requires Trim(n) == n
    ensures Trim(" " + n) == n
  {
    assert (" " + n)[1..] == n;
  }

  lemma {:induction false} LookupAppend(a: seq<Section>, b: seq<Section>, t: string)
    ensures Lookup(a + b, t) == if Lookup(a, t).Some? then Lookup(a, t) else Lookup(b, t)
  {
    hide After;
    if a == [] {
      assert a + b == b;
    } else {
      assert (a + b)[1..] == a[1..] + b;
      LookupAppend(a[1..], b, t);
    }
  }

  lemma LookupOptional(present: bool, tag: string, body: string, t: string)
    ensures Lookup(Optional(present, tag, body), t)
         == if !present then None else if tag == t then Some(body) else After(body, t)
  {
    hide After;
  }

  lemma LookupPlain(present: bool, tag: string, body: string, t: string)
    requires IsTag(t) && (present ==> AllPlain(body))
    ensures Lookup(Optional(present, tag, body), t) == if present && tag == t then Some(body) else None
  {
    hide AllPlain, Lookup, After, Optional;
    LookupOptional(present, tag, body, t);
    if present {
      PlainHasNoTag(body, t);
    }
  }

  lemma LookupListsStep(lists: seq<seq<Coord>>, k: nat, t: string)
    requires |lists| == |LISTS| && k < |LISTS| && IsTag(t)
    ensures Lookup(ListSections(lists, k), t) ==
            if lists[k] != [] && LISTS[k] == t then Some(Pairs(lists[k])) else Lookup(ListSections(lists, k + 1), t)
  {
    hide Lookup, Pairs;
    PairsPlain(lists[k]);
    LookupPlain(lists[k] != [], LISTS[k], Pairs(lists[k]), t);
    LookupAppend(Optional(lists[k] != [], LISTS[k], Pairs(lists[k])), ListSections(lists, k + 1), t);
  }

  lemma LookupListsEnd(lists: seq<seq<Coord>>, t: string)
    requires |lists| == |LISTS|
    ensures Lookup(ListSections(lists, |LISTS|), t) == None
  {
  }

  lemma {:induction false} LookupLists(lists: seq<seq<Coord>>, k: nat, t: string)
    requires |lists| == |LISTS| && k <= |LISTS| && IsTag(t)
    ensures forall j :: k <= j < |LISTS| && t == LISTS[j] ==>
              Lookup(ListSections(lists, k), t) == if lists[j] != [] then Some(Pairs(lists[j])) else None
    ensures (forall j :: k <= j < |LISTS| ==> t != LISTS[j]) ==> Lookup(ListSections(lists, k), t) == None
    decreases |LISTS| - k
  {
    hide Lookup, Pairs, ListSections;
    if k < |LISTS| {
      LookupLists(lists, k + 1, t);
      LookupListsStep(lists, k, t);
      ListTagsDiffer();
    } else {
      LookupListsEnd(lists, t);
    }
  }

  lemma ListTagsDiffer()
    ensures forall i, j :: 0 <= i < j < |LISTS| ==> LISTS[i] != LISTS[j]
  {
    forall i, j | 0 <= i < j < |LISTS|
      ensures LISTS[i] != LISTS[j]
    {
      assert LISTS[i][0] != LISTS[j][0] || LISTS[i][1] != LISTS[j][1];
    }
  }

  function PointBody(p: Option<Coord>): Option<string> {
    if p.None? then None else Some(" " + Pair(p.value))
  }

  lemma LookupPoint(tag: string, p: Option<Coord>, t: string)
    requires IsTag(t)
    ensures Lookup(PointSection(tag, p), t) == if tag == t then PointBody(p) else None
  {
    hide Pair, Lookup, After;
    if p.Some? {
      PairPlain(p.value);
      LookupPlain(true, tag, " " + Pair(p.value), t);
    } else {
      NoLookup(t);
    }
  }

  lemma NoLookup(t: string)
    ensures Lookup([], t) == None
  {
  }

  /** The text that a ship's own section with this tag has. */
  function Own(s: Ship, t: string): Option<string>
    requires |s.lists| == |LISTS|
  {
    if t == "NM:" then if s.name != "" then Some(" " + s.name) else None
    else if t == "AU:" then if s.author != "" then Some(" " + s.author) else None
    else if t == "SH:" then Some(Pairs(s.hull))
    else if t == "EN:" then PointBody(s.engine)
    else if t == "MG:" then PointBody(s.mainGun)
    else Lookup(ListSections(s.lists, 0), t)
  }

  /** What follows the tag in the name, or else in the author, if that comes before the ship's own section. */
  function Hiding(s: Ship, t: string): Option<string> {
    if t != "NM:" && After(s.name, t).Some? then After(s.name, t)
    else if t != "AU:" && !(t == "NM:" && s.name != "") then After(s.author, t)
    else None
  }

  lemma NothingAfter(t: string)
    requires IsTag(t)
    ensures After("", t) == None
  {
  }

  lemma LookupShip(s: Ship, t: string)
    requires |s.lists| == |LISTS| && IsTag(t)
    ensures Lookup(Sections(s), t) == if Hiding(s, t).Some? then Hiding(s, t) else Own(s, t)
  {
    hide Lookup, ListSections, Pairs, Pair, After, AllPlain;
    var a, b := Optional(s.name != "", "NM:", " " + s.name), Optional(s.author != "", "AU:", " " + s.author);
    var c, d, e := Optional(true, "SH:", Pairs(s.hull)), PointSection("EN:", s.engine), PointSection("MG:", s.mainGun);
    var l := ListSections(s.lists, 0);
    assert Sections(s) == a + b + c + d + e + l;
    LookupAppend(a + b + c + d + e, l, t);
    LookupAppend(a + b + c + d, e, t);
    LookupAppend(a + b + c, d, t);
    LookupAppend(a + b, c, t);
    LookupAppend(a, b, t);
    LookupOptional(s.name != "", "NM:", " " + s.name, t);
    LookupOptional(s.author != "", "AU:", " " + s.author, t);
    AfterSpace(s.name, t);
    AfterSpace(s.author, t);
    NothingAfter(t);
    PairsPlain(s.hull);
    LookupPlain(true, "SH:", Pairs(s.hull), t);
    LookupPoint("EN:", s.engine, t);
    LookupPoint("MG:", s.mainGun, t);
    OtherTags(t);
    LookupLists(s.lists, 0, t);
  }

  lemma OtherTags(t: string)
    ensures t == "NM:" || t == "AU:" || t == "SH:" || t == "EN:" || t == "MG:" ==> t !in LISTS
    ensures "NM:" != "AU:" && "NM:" != "SH:" && "NM:" != "EN:" && "NM:" != "MG:" && "AU:" != "SH:" && "AU:" != "EN:"
            && "AU:" != "MG:" && "SH:" != "EN:" && "SH:" != "MG:" && "EN:" != "MG:"
  {
    assert "NM:"[0] != "AU:"[0] && "NM:"[0] != "SH:"[0] && "NM:"[0] != "EN:"[0] && "NM:"[0] != "MG:"[0]
           && "AU:"[0] != "SH:"[0] && "AU:"[0] != "EN:"[0] && "AU:"[0] != "MG:"[0] && "SH:"[0] != "EN:"[0]
           && "SH:"[0] != "MG:"[0] && "EN:"[0] != "MG:"[0];
    forall k | 0 <= k < |LISTS|
      ensures LISTS[k] != "NM:" && LISTS[k] != "AU:" && LISTS[k] != "SH:" && LISTS[k] != "EN:" && LISTS[k] != "MG:"
    {
      assert LISTS[k][1] != 'M' && LISTS[k][1] != 'U' && LISTS[k][1] != 'H' && LISTS[k][1] != 'N';
      assert LISTS[k][1] == 'G' ==> LISTS[k][0] != 'M';
    }
  }

  // All sections can be found.

  lemma OkAppend(a: seq<Section>, b: seq<Section>)
    requires SectionsOk(a) && SectionsOk(b)
    ensures SectionsOk(a + b)
  {
    hide BodyOk;
  }

  lemma OptionalOk(present: bool, tag: string, body: string)
    requires IsTag(tag) && (present ==> BodyOk(body))
    ensures SectionsOk(Optional(present, tag, body))
  {
    hide BodyOk;
  }

  lemma PointOk(tag: string, p: Option<Coord>)
    requires IsTag(tag)
    ensures SectionsOk(PointSection(tag, p))
  {
    hide BodyOk, Pair;
    if p.Some? {
      PairPlain(p.value);
      PlainBodyOk(" " + Pair(p.value));
    }
  }

  lemma PairsBodyOk(list: seq<Coord>)
    requires list != []
    ensures BodyOk(Pairs(list))
  {
    hide Pairs, AllPlain, BodyOk;
    PairsPlain(list);
    PairsHead(list);
    PlainBodyOk(Pairs(list));
  }

  lemma {:induction false} ListsOk(lists: seq<seq<Coord>>, k: nat)
    requires |lists| == |LISTS|
    ensures SectionsOk(ListSections(lists, k))
    decreases |LISTS| - k
  {
    hide BodyOk, Pairs, SectionsOk;
    if k < |LISTS| {
      ListsOk(lists, k + 1);
      if lists[k] != [] {
        PairsBodyOk(lists[k]);
      }
      OptionalOk(lists[k] != [], LISTS[k], Pairs(lists[k]));
      OkAppend(Optional(lists[k] != [], LISTS[k], Pairs(lists[k])), ListSections(lists, k + 1));
    } else {
      NoSections();
    }
  }

  lemma NoSections()
    ensures SectionsOk([])
  {
  }

  /** A ship that is saved, with names in which no bracket closes. */
  predicate Saved(s: Ship) {
    s.hull != [] && |s.lists| == |LISTS| && NoBracket(s.name) && NoBracket(s.author)
  }

  lemma ShipSectionsOk(s: Ship)
    requires Saved(s)
    ensures SectionsOk(Sections(s))
  {
    hide Pairs, Pair, SectionsOk, ListSections;
    var a, b := Optional(s.name != "", "NM:", " " + s.name), Optional(s.author != "", "AU:", " " + s.author);
    var c, d, e := Optional(true, "SH:", Pairs(s.hull)), PointSection("EN:", s.engine), PointSection("MG:", s.mainGun);
    var l := ListSections(s.lists, 0);
    PairsBodyOk(s.hull);
    OptionalOk(s.name != "", "NM:", " " + s.name);
    OptionalOk(s.author != "", "AU:", " " + s.author);
    OptionalOk(true, "SH:", Pairs(s.hull));
    PointOk("EN:", s.engine);
    PointOk("MG:", s.mainGun);
    ListsOk(s.lists, 0);
    OkAppend(a, b);
    OkAppend(a + b, c);
    OkAppend(a + b + c, d);
    OkAppend(a + b + c + d, e);
    OkAppend(a + b + c + d + e, l);
    assert Sections(s) == a + b + c + d + e + l;
  }

  /** The text found for a tag. */
  function Found(s: Ship, t: string): Option<string>
    requires |s.lists| == |LISTS|
  {
    if Hiding(s, t).Some? then Hiding(s, t) else Own(s, t)
  }

  lemma SectionFound(s: Ship, t: string)
    requires Saved(s) && IsTag(t)
    ensures var i := Find(ShipString(s), t, 0);
            match Found(s, t)
            case None => i == -1
            case Some(body) => |HEAD| <= i && Starts(ShipString(s), i + 3, body + ")") && NoBracket(body)
  {
    hide Own, Hiding, SectionsOk, Sections, TextOf, Lookup;
    ShipSectionsOk(s);
    FindTag(Sections(s), t);
    LookupShip(s, t);
    LookupNoBracket(Sections(s), t);
  }

  lemma {:induction false} LookupNoBracket(secs: seq<Section>, t: string)
    requires SectionsOk(secs)
    ensures Lookup(secs, t).Some? ==> NoBracket(Lookup(secs, t).value)
  {
    hide Find;
    if secs != [] {
      LookupNoBracket(secs[1..], t);
    }
  }

  // ---------------------------------------------------------------- scanning stays inside the section

  /** From p to the first closing bracket at e, both texts are the same, the second one d places further on. */
  predicate SameSection(s: string, s': string, d: int, p: nat, e: nat) {
    && p <= e < |s| && 0 <= p + d && e + d < |s'| && s[e] == ')'
    && forall i :: p <= i <= e ==> s[i] == s'[i + d] && (i < e ==> s[i] != ')')
  }

  lemma SameLater(s: string, s': string, d: int, p: nat, e: nat, q: nat)
    requires SameSection(s, s', d, p, e) && p <= q <= e
    ensures SameSection(s, s', d, q, e)
  {
  }

  /** A character before the bracket, or the bracket itself. */
  lemma SameChar(s: string, s': string, d: int, p: nat, e: nat)
    requires SameSection(s, s', d, p, e)
    ensures p < |s| && 0 <= p + d < |s'| && s[p] == s'[p + d] && (s[p] == ')' <==> p == e) && p <= e
  {
  }

  lemma {:induction false} SkipSame(s: string, s': string, d: int, p: nat, e: nat)
    requires SameSection(s, s', d, p, e)
    ensures var r, r' := SkipSpaces(s, p), SkipSpaces(s', p + d);
            r.Some? && r'.Some? && r'.value == r.value + d && p <= r.value <= e
    decreases e - p
  {
    hide SameSection;
    SameChar(s, s', d, p, e);
    if s[p] == ' ' {
      SameLater(s, s', d, p, e, p + 1);
      SkipSame(s, s', d, p + 1, e);
    }
  }

  lemma NumberSame(s: string, s': string, d: int, p: nat, e: nat, temp: int)
    requires SameSection(s, s', d, p, e)
    ensures var r, r' := ReadNumber(s, p, temp), ReadNumber(s', p + d, temp);
            r.Some? && r'.Some? && r.value.temp == r'.value.temp && r'.value.p == r.value.p + d && p <= r.value.p <= e
  {
  }

  lemma PairSame(s: string, s': string, d: int, p: nat, e: nat, temp: int)
    requires SameSection(s, s', d, p, e)
    ensures var r, r' := ReadPair(s, p, temp), ReadPair(s', p + d, temp);
            && r.Some? && r'.Some? && r.value.temp == r'.value.temp && r.value.c == r'.value.c
            && r'.value.p == r.value.p + d && p <= r.value.p <= e
  {
    hide ReadNumber, SameSection;
    NumberSame(s, s', d, p, e, temp);
    var x := ReadNumber(s, p, temp).value;
    SameLater(s, s', d, p, e, x.p);
    SkipSame(s, s', d, x.p, e);
    var q := SkipSpaces(s, x.p).value;
    SameLater(s, s', d, p, e, q);
    SameChar(s, s', d, q, e);
    var q1 := if s[q] == ',' then q + 1 else q;
    SameLater(s, s', d, p, e, q1);
    SkipSame(s, s', d, q1, e);
    var q2 := SkipSpaces(s, q1).value;
    SameLater(s, s', d, p, e, q2);
    NumberSame(s, s', d, q2, e, x.temp);
  }

  /** What the scanner reads depends only on the text up to the bracket. */
  lemma {:induction false} ScanSame(s: string, s': string, d: int, p: nat, e: nat, temp: int)
    requires SameSection(s, s', d, p, e)
    ensures p + d >= 0 && ScanFrom(s, p, temp) == ScanFrom(s', p + d, temp)
    decreases e - p
  {
    hide ReadPair, SameSection;
    SameChar(s, s', d, p, e);
    if s[p] == '-' || IsDigit(s[p]) {
      PairSame(s, s', d, p, e, temp);
      var r := ReadPair(s, p, temp).value;
      SameLater(s, s', d, p, e, r.p);
      SameChar(s, s', d, r.p, e);
      if s[r.p] != ')' {
        SameLater(s, s', d, p, e, r.p + 1);
        ScanSame(s, s', d, r.p + 1, e, r.temp);
      }
    } else if s[p] != ')' {
      SameLater(s, s', d, p, e, p + 1);
      ScanSame(s, s', d, p + 1, e, temp);
    }
  }

  lemma ScanBody(text: string, p: nat, body: string)
    requires Starts(text, p, body + ")") && NoBracket(body)
    ensures ScanFrom(text, p, 0) == ScanFrom(body + ")", 0, 0)
  {
    var u := body + ")";
    assert text[p..p + |u|] == u;
    forall i | 0 <= i < |u|
      ensures u[i] == text[i + p]
    {
      assert text[p..p + |u|][i] == text[p + i];
    }
    ScanSame(u, text, p, 0, |body|, 0);
  }

  // ---------------------------------------------------------------- the round trip

  /** What the scanner makes of a section text. */
  function Scanned(body: string): Option<seq<Coord>> {
    ScanFrom(body + ")", 0, 0)
  }

  function LastOf(list: seq<Coord>): Option<Coord> {
    if list == [] then None else Some(list[|list| - 1])
  }

  lemma ListLoads(s: Ship, t: string, limit: nat)
    requires Saved(s) && IsTag(t)
    ensures ListIn(ShipString(s), t, limit)
         == match Found(s, t)
            case None => Some([])
            case Some(body) => if Scanned(body).Some? && |Scanned(body).value| <= limit then Scanned(body) else None
  {
    hide Found, ShipString, ScanFrom;
    SectionFound(s, t);
    if Found(s, t).Some? {
      ScanBody(ShipString(s), Find(ShipString(s), t, 0) + 3, Found(s, t).value);
    }
  }

  lemma PointLoads(s: Ship, t: string)
    requires Saved(s) && IsTag(t)
    ensures PointIn(ShipString(s), t)
         == match Found(s, t)
            case None => Some(None)
            case Some(body) => if Scanned(body).Some? then Some(LastOf(Scanned(body).value)) else None
  {
    hide Found, ShipString, ScanFrom;
    SectionFound(s, t);
    if Found(s, t).Some? {
      ScanBody(ShipString(s), Find(ShipString(s), t, 0) + 3, Found(s, t).value);
    }
  }

  lemma NameLoads(s: Ship, t: string)
    requires Saved(s) && IsTag(t)
    ensures NameIn(ShipString(s), t) == if Found(s, t).Some? then Trim(Found(s, t).value) else ""
  {
    hide Found, ShipString, Trim;
    SectionFound(s, t);
    if Found(s, t).Some? {
      var text, i, body := ShipString(s), Find(ShipString(s), t, 0) + 3, Found(s, t).value;
      BracketFound(text, body, i);
      StartsSplit(text, i, body, ")");
    }
  }

  /** The search for the closing bracket ends after the name. */
  lemma BracketFound(text: string, body: string, i: nat)
    requires Starts(text, i, body + ")") && NoBracket(body)
    ensures Find(text, ")", i) == i + |body|
  {
    StartsSplit(text, i, body, ")");
    forall q | i <= q < i + |body|
      ensures !Starts(text, q, ")")
    {
      StartsAt(text, i, body, q - i);
      if Starts(text, q, ")") {
        StartsAt(text, q, ")", 0);
        assert false;
      }
    }
    FindFirst(text, ")", i, i + |body|);
  }

  /** Scanning the text of a list gives the list. */
  lemma OwnScans(list: seq<Coord>)
    requires SmallList(list) && list != []
    ensures Scanned(Pairs(list)) == Some(list)
  {
    hide Pairs, ScanFrom;
    BodyReads(Pairs(list) + ")", 0, list);
  }

  /** Scanning this text for tag t gives what the ship has there. */
  predicate ReadsBack(s: Ship, t: string, body: string)
    requires |s.lists| == |LISTS|
  {
    && (t == "NM:" ==> Trim(body) == s.name)
    && (t == "AU:" ==> Trim(body) == s.author)
    && (t == "SH:" ==> Scanned(body) == Some(s.hull))
    && (t == "EN:" ==> Scanned(body).Some? && LastOf(Scanned(body).value) == s.engine)
    && (t == "MG:" ==> Scanned(body).Some? && LastOf(Scanned(body).value) == s.mainGun)
    && forall k :: 0 <= k < |LISTS| && t == LISTS[k] ==> Scanned(body) == Some(s.lists[k])
  }

  /** What hides the ship's own section with tag t, if anything does, reads the same. */
  predicate Harmless(s: Ship, t: string)
    requires |s.lists| == |LISTS|
  {
    Hiding(s, t).Some? ==> ReadsBack(s, t, Hiding(s, t).value)
  }

  /** Tags in the name or the author do no harm. */
  predicate TagsHarmless(s: Ship)
    requires |s.lists| == |LISTS|
  {
    forall k :: 0 <= k < |TAGS| ==> Harmless(s, TAGS[k])
  }

  lemma NameBack(s: Ship)
    requires Saved(s) && NameFits(s.name) && NameFits(s.author)
    ensures NameIn(ShipString(s), "NM:") == s.name <==> Harmless(s, "NM:")
    ensures NameIn(ShipString(s), "AU:") == s.author <==> Harmless(s, "AU:")
  {
    hide ShipString, Trim, Hiding, Scanned, Saved;
    OtherTags("NM:");
    OtherTags("AU:");
    NameLoads(s, "NM:");
    NameLoads(s, "AU:");
    TrimSpace(s.name);
    TrimSpace(s.author);
  }

  lemma HullBack(s: Ship)
    requires Saved(s) && SmallList(s.hull) && |s.hull| <= HULL_LIMIT
    ensures ListIn(ShipString(s), "SH:", HULL_LIMIT) == Some(s.hull) <==> Harmless(s, "SH:")
  {
    hide ShipString, Trim, Hiding, Scanned, Pairs, ListIn;
    OtherTags("SH:");
    ListLoads(s, "SH:", HULL_LIMIT);
    OwnScans(s.hull);
  }

  lemma OnePair(c: Coord)
    ensures Pairs([c]) == " " + Pair(c)
  {
    assert Pairs([]) == "";
  }

  lemma OwnPoint(p: Option<Coord>)
    requires PointFits(p) && p.Some?
    ensures Scanned(" " + Pair(p.value)) == Some([p.value])
  {
    hide Pairs, Pair, Scanned;
    OnePair(p.value);
    OwnScans([p.value]);
  }

  lemma PointsBack(s: Ship)
    requires Saved(s) && PointFits(s.engine) && PointFits(s.mainGun)
    ensures PointIn(ShipString(s), "EN:") == Some(s.engine) <==> Harmless(s, "EN:")
    ensures PointIn(ShipString(s), "MG:") == Some(s.mainGun) <==> Harmless(s, "MG:")
  {
    hide ShipString, Trim, Hiding, Scanned, Pair, PointIn, PointFits, Saved;
    OtherTags("EN:");
    OtherTags("MG:");
    PointLoads(s, "EN:");
    PointLoads(s, "MG:");
    if s.engine.Some? {
      OwnPoint(s.engine);
    }
    if s.mainGun.Some? {
      OwnPoint(s.mainGun);
    }
  }

  lemma ListBack(s: Ship, k: nat)
    requires Saved(s) && k < |LISTS| && SmallList(s.lists[k]) && |s.lists[k]| <= LIMITS[k]
    ensures ListIn(ShipString(s), LISTS[k], LIMITS[k]) == Some(s.lists[k]) <==> Harmless(s, LISTS[k])
  {
    hide ShipString, Trim, Hiding, Scanned, Pairs, ListIn, Lookup, ListSections;
    ListTag(k);
    OtherTags(LISTS[k]);
    ListTagsDiffer();
    ListLoads(s, LISTS[k], LIMITS[k]);
    LookupLists(s.lists, 0, LISTS[k]);
    if s.lists[k] != [] {
      OwnScans(s.lists[k]);
    }
  }

  lemma ListTag(k: nat)
    requires k < |LISTS|
    ensures IsTag(LISTS[k]) && LISTS[k] == TAGS[5 + k] && LISTS[k] != "NM:" && LISTS[k] != "AU:"
  {
    OtherTags(LISTS[k]);
  }

  /** The lists from number k on are all read back. */
  lemma {:induction false} ListsBack(s: Ship, k: nat)
    requires Saved(s) && ListsFit(s.lists, 0) && k <= |LISTS|
    ensures ListsIn(ShipString(s), k) == Some(s.lists[k..])
       <==> forall j :: k <= j < |LISTS| ==> Harmless(s, LISTS[j])
    decreases |LISTS| - k
  {
    hide ShipString, ListIn, Harmless;
    if k < |LISTS| {
      ListsBack(s, k + 1);
      assert LIMITS[0 + k] == LIMITS[k];
      ListBack(s, k);
      ConsEqual(ListsIn(ShipString(s), k), ListIn(ShipString(s), LISTS[k], LIMITS[k]), ListsIn(ShipString(s), k + 1),
          s.lists, k);
    } else {
      assert s.lists[k..] == [];
    }
  }

  lemma ConsEqual(all: Option<seq<seq<Coord>>>, first: Option<seq<Coord>>, rest: Option<seq<seq<Coord>>>,
                  lists: seq<seq<Coord>>, k: nat)
    requires k < |lists|
    requires all == if first.Some? && rest.Some? then Some([first.value] + rest.value) else None
    ensures all == Some(lists[k..]) <==> first == Some(lists[k]) && rest == Some(lists[k + 1..])
  {
    assert lists[k..] == [lists[k]] + lists[k + 1..];
    if all == Some(lists[k..]) {
      assert all.value[1..] == rest.value && lists[k..][1..] == lists[k + 1..];
    }
  }

  lemma AllTags(s: Ship)
    requires |s.lists| == |LISTS|
    ensures TagsHarmless(s) <==>
            && Harmless(s, "NM:") && Harmless(s, "AU:") && Harmless(s, "SH:") && Harmless(s, "EN:")
            && Harmless(s, "MG:")
            && forall j :: 0 <= j < |LISTS| ==> Harmless(s, LISTS[j])
  {
    hide Harmless;
    assert TAGS[0] == "NM:" && TAGS[1] == "AU:" && TAGS[2] == "SH:" && TAGS[3] == "EN:" && TAGS[4] == "MG:";
    forall j | 0 <= j < |LISTS|
      ensures LISTS[j] == TAGS[5 + j]
    {
      ListTag(j);
    }
    forall k | 5 <= k < |TAGS|
      ensures TAGS[k] == LISTS[k - 5]
    {
      ListTag(k - 5);
    }
  }

  lemma ShipBack(s: Ship)
    requires Saved(s) && Fits(s)
    ensures ShipIn(ShipString(s)) == Some(s) <==> TagsHarmless(s)
  {
    hide ShipString, ListIn, PointIn, NameIn, ListsIn, Harmless, TagsHarmless;
    NameBack(s);
    HullBack(s);
    PointsBack(s);
    ListsBack(s, 0);
    AllTags(s);
    assert s.lists[0..] == s.lists;
  }

  /** Saving and loading gives back a ship with a hull if and only if its names, coordinates and lists fit,
      and the tags in its names do no harm. */
  lemma RoundTrip(s: Ship)
    requires s.hull != [] && |s.lists| == |LISTS|
    ensures ShipIn(ShipString(s)) == Some(s) <==> Fits(s) && TagsHarmless(s)
  {
    hide ShipString, ShipIn, TagsHarmless;
    if ShipIn(ShipString(s)) == Some(s) {
      LoadedFits(ShipString(s));
    }
    if Fits(s) {
      ShipBack(s);
    }
  }

  lemma TagAlone(t: string, t': string)
    requires IsTag(t) && IsTag(t')
    ensures After(t, t') == if t == t' then Some("") else None
  {
    assert t[0..3] == t && t[3..] == "";
  }

  /** So a ship named SH: loses its hull, and one named MR: comes back if it has no missile racks. */
  lemma NamedLikeTags(s: Ship)
    requires s.hull != [] && |s.lists| == |LISTS| && s.author == ""
    ensures s.name == "SH:" ==> ShipIn(ShipString(s)) != Some(s)
    ensures s.name == "MR:" && Fits(s) && s.lists[6] == [] ==> ShipIn(ShipString(s)) == Some(s)
  {
    hide ShipIn, ShipString, Fits, After;
    RoundTrip(s);
    assert Scanned("") == Some([]);
    if s.name == "SH:" {
      TagAlone("SH:", "SH:");
      assert TAGS[2] == "SH:" && !Harmless(s, TAGS[2]);
    }
    if s.name == "MR:" {
      forall k | 0 <= k < |TAGS|
        ensures Harmless(s, TAGS[k]) || s.lists[6] != []
      {
        TagAlone("MR:", TAGS[k]);
        NothingAfter(TAGS[k]);
        if TAGS[k] == "MR:" {
          RackTag();
        }
      }
    }
  }

  lemma RackTag()
    ensures forall k :: 0 <= k < |LISTS| && "MR:" == LISTS[k] ==> k == 6
    ensures "MR:" != "NM:" && "MR:" != "AU:" && "MR:" != "SH:" && "MR:" != "EN:" && "MR:" != "MG:"
  {
    assert LISTS[6] == "MR:";
    ListTagsDiffer();
    OtherTags("MR:");
  }

  // ---------------------------------------------------------------- what can be loaded at all

  /** A trimmed name without closing brackets. */
  predicate NameFits(n: string) {
    Trim(n) == n && NoBracket(n)
  }

  predicate PointFits(p: Option<Coord>) { p.Some? ==> SmallCoord(p.value) }

  predicate ListsFit(lists: seq<seq<Coord>>, k: nat) {
    |lists| == |LISTS| - k && forall j :: 0 <= j < |lists| ==> |lists[j]| <= LIMITS[k + j] && SmallList(lists[j])
  }

  predicate Fits(s: Ship) {
    && NameFits(s.name) && NameFits(s.author) && |s.hull| <= HULL_LIMIT && SmallList(s.hull)
    && PointFits(s.engine) && PointFits(s.mainGun) && ListsFit(s.lists, 0)
  }

  lemma NumberSmall(s: string, p: nat, temp: int)
    requires TwoDigits(temp)
    ensures ReadNumber(s, p, temp).Some? ==> TwoDigits(ReadNumber(s, p, temp).value.temp)
  {
  }

  lemma PairSmall(s: string, p: nat, temp: int)
    requires TwoDigits(temp)
    ensures var r := ReadPair(s, p, temp); r.Some? ==> SmallCoord(r.value.c) && TwoDigits(r.value.temp)
  {
    hide ReadNumber;
    NumberSmall(s, p, temp);
    if ReadNumber(s, p, temp).Some? {
      var x := ReadNumber(s, p, temp).value;
      var q := SkipSpaces(s, x.p);
      if q.Some? {
        var q' := SkipSpaces(s, if s[q.value] == ',' then q.value + 1 else q.value);
        if q'.Some? {
          NumberSmall(s, q'.value, x.temp);
        }
      }
    }
  }

  /** The scanner never reads a number of more than two digits, on any text. */
  lemma {:induction false} ScanSmall(s: string, p: nat, temp: int)
    requires TwoDigits(temp)
    ensures ScanFrom(s, p, temp).Some? ==> SmallList(ScanFrom(s, p, temp).value)
    decreases |s| - p
  {
    hide ReadPair;
    if p >= |s| {
    } else if s[p] == '-' || IsDigit(s[p]) {
      PairSmall(s, p, temp);
      var r := ReadPair(s, p, temp);
      if r.Some? && s[r.value.p] != ')' {
        ScanSmall(s, r.value.p + 1, r.value.temp);
      }
    } else if s[p] != ')' {
      ScanSmall(s, p + 1, temp);
    }
  }

  lemma {:induction false} TrimFits(s: string)
    requires NoBracket(s)
    ensures NameFits(Trim(s))
    decreases |s|
  {
    if s != "" && Blank(s[0]) {
      TrimFits(s[1..]);
    } else if s != "" && Blank(s[|s| - 1]) {
      TrimFits(s[..|s| - 1]);
    }
  }

  /** No earlier place would have been found. */
  lemma {:induction false} FindLeast(s: string, t: string, p: nat, q: nat)
    requires p <= q < Find(s, t, p)
    ensures !Starts(s, q, t)
    decreases q - p
  {
    if p < q {
      FindLeast(s, t, p + 1, q);
    }
  }

  lemma NameLoaded(text: string, tag: string)
    ensures NameFits(NameIn(text, tag))
  {
    hide Trim, Find, NameFits;
    var i := Find(text, tag, 0) + 3;
    var ii := if i < 0 then -1 else Find(text, ")", i);
    TrimFits("");
    EmptyTrim();
    if i > 5 && ii > 0 {
      forall k | 0 <= k < |text[i..ii]|
        ensures text[i..ii][k] != ')'
      {
        FindLeast(text, ")", i, i + k);
        assert text[i + k..i + k + 1] == [text[i + k]];
      }
      TrimFits(text[i..ii]);
    }
  }

  lemma EmptyTrim()
    ensures Trim("") == ""
  {
  }

  lemma {:induction false} ListsLoaded(text: string, k: nat)
    requires k <= |LISTS|
    ensures ListsIn(text, k).Some? ==> ListsFit(ListsIn(text, k).value, k)
    decreases |LISTS| - k
  {
    hide Find, ScanFrom, SmallList;
    if k < |LISTS| {
      ListLoaded(text, LISTS[k], LIMITS[k]);
      ListsLoaded(text, k + 1);
    }
  }

  lemma ListLoaded(text: string, tag: string, limit: nat)
    ensures var r := ListIn(text, tag, limit); r.Some? ==> |r.value| <= limit && SmallList(r.value)
  {
    hide Find, ScanFrom;
    if Find(text, tag, 0) >= 0 {
      ScanSmall(text, Find(text, tag, 0) + 3, 0);
    }
  }

  lemma PointLoaded(text: string, tag: string)
    ensures var r := PointIn(text, tag); r.Some? ==> PointFits(r.value)
  {
    hide Find, ScanFrom;
    if Find(text, tag, 0) >= 0 {
      ScanSmall(text, Find(text, tag, 0) + 3, 0);
    }
  }

  /** Whatever the text, a ship that is loaded has trimmed names and small coordinates and keeps the limits. */
  lemma LoadedFits(text: string)
    ensures ShipIn(text).Some? ==> Fits(ShipIn(text).value)
  {
    hide NameIn, PointIn, ListIn, ListsIn, NameFits, PointFits, ListsFit, SmallList;
    NameLoaded(text, "NM:");
    NameLoaded(text, "AU:");
    ListLoaded(text, "SH:", HULL_LIMIT);
    PointLoaded(text, "MG:");
    PointLoaded(text, "EN:");
    ListsLoaded(text, 0);
  }

  /** With three digits it would not work: a hull with the point (100, 0) is read as two points. */
  lemma ThreeDigitsLost()
    ensures Pairs([Coord(100, 0)]) == " 100,0" && ScanFrom(" 100,0)", 0, 0) == Some([Coord(10, 0), Coord(0, 0)])
  {
    var s := " 100,0)";
    assert Digits(1) == "1" && Digits(10) == "10" && Digits(100) == "100" && Digits(0) == "0";
    assert Pairs([]) == "";
    assert ReadNumber(s, 1, 0) == Some(Cursor(3, 10));
    assert SkipSpaces(s, 3) == Some(3);
    assert ReadNumber(s, 3, 10) == Some(Cursor(4, 0));
    assert ReadPair(s, 1, 0) == Some(PairRead(Coord(10, 0), 4, 0));
    assert ReadNumber(s, 5, 0) == Some(Cursor(6, 0)) && ReadNumber(s, 6, 0) == Some(Cursor(6, 0));
    assert ReadPair(s, 5, 0) == Some(PairRead(Coord(0, 0), 6, 0));
    assert ScanFrom(s, 5, 0) == Some([Coord(0, 0)]);
    assert [Coord(10, 0)] + [Coord(0, 0)] == [Coord(10, 0), Coord(0, 0)];
    assert ScanFrom(s, 1, 0) == Prepend(Coord(10, 0), ScanFrom(s, 5, 0));
  }
}
