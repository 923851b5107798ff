/**
 Assembly of control code: `cert_elf_loader::parse` sorts the sections of a control-code file
 by their names into columns and pages, and lays each column's code out by ascending page.

 A section is taken with its contents after relocation: the pages of the source point into the
 section data that relocation patches.
 */
module ColumnImage {
  import opened LittleEndian
  import opened Options

  datatype Section = Section(name: string, present: bool, data: seq<Byte>)

  // ----- Names ------------------------------------------------------------------------

  /** What a section is for. */
  datatype Class = Text(col: int, page: int) | Data(col: int, page: int) | Pad(col: int) | Other

  predicate IsDigit(c: char) {
    '0' <= c <= '9'
  }

  function Digits(s: string): Option<nat> {
    if s == [] then Some(0)
    else
      var c, rest := s[|s| - 1], Digits(s[..|s| - 1]);
      if rest.None? || !IsDigit(c) then None else Some(10 * rest.value + (c as int - '0' as int))
  }

  predicate IsInt32(n: int) {
    -0x8000_0000 <= n < 0x8000_0000
  }

  /** `from_chars` of a whole string: an optional minus sign and at least one digit. */
  function ParseInt(s: string): Option<int> {
    var negative := s != [] && s[0] == '-';
    var body := if negative then s[1..] else s;
    if body == [] || Digits(body).None? then None
    else
      var n: int := if negative then -(Digits(body).value as int) else Digits(body).value;
      if IsInt32(n) then Some(n) else None
  }

  /** The position of the first dot, or the length. */
  function FirstDot(s: string): (k: nat)
    ensures k <= |s|
  {
    if s == [] || s[0] == '.' then 0 else 1 + FirstDot(s[1..])
  }

  /** A column, a dot and a page. */
  function ParsePair(s: string): Option<(int, int)> {
    var k := FirstDot(s);
    if k == |s| || k == 0 then None
    else
      var col, page := ParseInt(s[..k]), ParseInt(s[k + 1..]);
      if col.None? || page.None? then None else Some((col.value, page.value))
  }

  function Strip(prefix: string, s: string): Option<string> {
    if prefix <= s then Some(s[|prefix|..]) else None
  }

  const TEXT := ".ctrltext."
  const DATA := ".ctrldata."
  const PAD := ".pad."

  function Classify(name: string): Class {
    var t, d, p := Strip(TEXT, name), Strip(DATA, name), Strip(PAD, name);
    if t.Some? && ParsePair(t.value).Some? then
      var (c, g) := ParsePair(t.value).value; Text(c, g)
    else if d.Some? && ParsePair(d.value).Some? then
      var (c, g) := ParsePair(d.value).value; Data(c, g)
    else if p.Some? && ParseInt(p.value).Some? then Pad(ParseInt(p.value).value)
    else Other
  }

  /** Decimal notation. */
  function Nat(n: nat): (s: string)
    ensures s != []
  {
    var last := ('0' as int + n % 10) as char;
    if n < 10 then [last] else Nat(n / 10) + [last]
  }

  function Dec(n: int): string {
    if n < 0 then "-" + Nat(-n) else Nat(n)
  }

  /** The name a section of a class has. */
  function NameOf(c: Class): string {
    match c
    case Text(col, page) => TEXT + (Dec(col) + "." + Dec(page))
    case Data(col, page) => DATA + (Dec(col) + "." + Dec(page))
    case Pad(col) => PAD + Dec(col)
    case Other => ""
  }

  predicate AllDigits(s: string) {
    forall i :: 0 <= i < |s| ==> IsDigit(s[i])
  }

  lemma {:induction false} NatDigits(n: nat)
    ensures Digits(Nat(n)) == Some(n) && AllDigits(Nat(n))
  {
    var s := Nat(n);
    if n >= 10 {
      NatDigits(n / 10);
      assert s[..|s| - 1] == Nat(n / 10);
    } else {
      assert s[..0] == [];
    }
  }

  lemma ParseDec(n: int)
    requires IsInt32(n)
    ensures ParseInt(Dec(n)) == Some(n)
  {
    NatDigits(if n < 0 then -n else n);
    if n < 0 {
      assert Dec(n)[1..] == Nat(-n);
    }
  }

  lemma {:induction false} DotAfter(s: string, t: string)
    requires forall i :: 0 <= i < |s| ==> s[i] != '.'
    ensures FirstDot(s + "." + t) == |s|
  {
    if s == [] {
      assert ([] + "." + t)[0] == '.';
    } else {
      DotAfter(s[1..], t);
      assert (s + "." + t)[1..] == s[1..] + "." + t;
    }
  }

  lemma PairOf(col: int, page: int)
    requires IsInt32(col) && IsInt32(page)
    ensures ParsePair(Dec(col) + "." + Dec(page)) == Some((col, page))
  {
    var c, g := Dec(col), Dec(page);
    NatDigits(if col < 0 then -col else col);
    DotAfter(c, g);
    var s := c + "." + g;
    assert s[..|c|] == c && s[|c| + 1..] == g;
    ParseDec(col);
    ParseDec(page);
  }

  lemma Stripped(prefix: string, s: string)
    ensures Strip(prefix, prefix + s) == Some(s)
  {
    assert (prefix + s)[|prefix|..] == s;
  }

  lemma NotStripped(prefix: string, other: string, s: string, i: nat)
    requires i < |prefix| && i < |other| && prefix[i] != other[i]
    ensures Strip(prefix, other + s) == None
  {
    assert (other + s)[i] == other[i];
  }

  lemma TextName(col: int, page: int)
    requires IsInt32(col) && IsInt32(page)
    ensures Classify(NameOf(Text(col, page))) == Text(col, page)
  {
    hide Strip, ParsePair, ParseInt, Dec;
    PairOf(col, page);
    Stripped(TEXT, Dec(col) + "." + Dec(page));
  }

  lemma DataName(col: int, page: int)
    requires IsInt32(col) && IsInt32(page)
    ensures Classify(NameOf(Data(col, page))) == Data(col, page)
  {
    hide Strip, ParsePair, ParseInt, Dec;
    PairOf(col, page);
    Stripped(DATA, Dec(col) + "." + Dec(page));
    NotStripped(TEXT, DATA, Dec(col) + "." + Dec(page), 5);
  }

  lemma PadName(col: int)
    requires IsInt32(col)
    ensures Classify(NameOf(Pad(col))) == Pad(col)
  {
    hide Strip, ParsePair, ParseInt, Dec;
    ParseDec(col);
    Stripped(PAD, Dec(col));
    NotStripped(TEXT, PAD, Dec(col), 1);
    NotStripped(DATA, PAD, Dec(col), 1);
  }

  predicate Fits(c: Class) {
    c.Other? || (IsInt32(c.col) && (c.Pad? || IsInt32(c.page)))
  }

  /** Names and classes: every column and page of 32 bits is found again. */
  lemma NameRoundTrip(c: Class)
    requires Fits(c)
    ensures Classify(NameOf(c)) == c
  {
    match c {
      case Text(col, page) => TextName(col, page);
      case Data(col, page) => DataName(col, page);
      case Pad(col) => PadName(col);
      case Other =>
    }
  }

  /** The names themselves. */
  lemma SectionNames(col: int, page: int)
    requires IsInt32(col) && IsInt32(page)
    ensures Classify(".ctrltext." + (Dec(col) + "." + Dec(page))) == Text(col, page)
    ensures Classify(".ctrldata." + (Dec(col) + "." + Dec(page))) == Data(col, page)
    ensures Classify(".pad." + Dec(col)) == Pad(col)
  {
    hide Classify, Dec;
    TextName(col, page);
    DataName(col, page);
    PadName(col);
  }

  // ----- Columns and pages ------------------------------------------------------------

  datatype Page = Page(text: seq<Byte>, data: seq<Byte>)

  datatype Column = Column(pages: map<int, Page>, pads: seq<seq<Byte>>)

  type Columns = map<int, Column>

  function ColumnAt(m: Columns, c: int): Column {
    if c in m then m[c] else Column(map[], [])
  }

  function PageAt(col: Column, p: int): Page {
    if p in col.pages then col.pages[p] else Page([], [])
  }

  /** A section by its class; one without data counts for nothing. */
  datatype Piece = Piece(kind: Class, bytes: seq<Byte>)

  function PieceOf(s: Section): Piece {
    Piece(if s.present then Classify(s.name) else Other, s.data)
  }

  function Pieces(ss: seq<Section>): (ps: seq<Piece>)
    ensures |ps| == |ss|
  {
    seq(|ss|, i requires 0 <= i < |ss| => PieceOf(ss[i]))
  }

  /** One section: it replaces a page's text or data, or adds a pad. */
  function Add(m: Columns, s: Piece): Columns {
    match s.kind
    case Text(c, p) => m[c := WithPage(ColumnAt(m, c), p, PageAt(ColumnAt(m, c), p).(text := s.bytes))]
    case Data(c, p) => m[c := WithPage(ColumnAt(m, c), p, PageAt(ColumnAt(m, c), p).(data := s.bytes))]
    case Pad(c) => m[c := ColumnAt(m, c).(pads := ColumnAt(m, c).pads + [s.bytes])]
    case Other => m
  }

  function WithPage(col: Column, p: int, page: Page): Column {
    col.(pages := col.pages[p := page])
  }

  function Collect(ps: seq<Piece>): Columns {
    if ps == [] then map[] else Add(Collect(ps[..|ps| - 1]), ps[|ps| - 1])
  }

  /** The loop over the sections. */
  method CollectSections(ss: seq<Section>) returns (m: Columns)
    ensures m == Collect(Pieces(ss))
  {
    m := map[];
    var i := 0;
    ghost var ps := Pieces(ss);
    while i < |ss|
      invariant 0 <= i <= |ss| && m == Collect(ps[..i])
    {
      assert ps[..i + 1][..i] == ps[..i];
      m := Add(m, PieceOf(ss[i]));
      i := i + 1;
    }
    assert ps[..i] == ps;
  }

  // ----- What is collected, class by class --------------------------------------------

  /** Some section is of a class. */
  predicate Occurs(ps: seq<Piece>, c: Class) {
    exists i :: 0 <= i < |ps| && ps[i].kind == c
  }

  /** The contents of the last section of a class. */
  function Last(ps: seq<Piece>, c: Class): seq<Byte> {
    if ps == [] then []
    else if ps[|ps| - 1].kind == c then ps[|ps| - 1].bytes
    else Last(ps[..|ps| - 1], c)
  }

  /** The contents of all pads of a column, in order. */
  function PadsOf(ps: seq<Piece>, c: int): seq<seq<Byte>> {
    if ps == [] then []
    else PadsOf(ps[..|ps| - 1], c) + if ps[|ps| - 1].kind == Pad(c) then [ps[|ps| - 1].bytes] else []
  }

  /** Some section is of a page. */
  predicate HasPage(ps: seq<Piece>, c: int, p: int) {
    Occurs(ps, Text(c, p)) || Occurs(ps, Data(c, p))
  }

  predicate OfColumn(s: Piece, c: int) {
    !s.kind.Other? && s.kind.col == c
  }

  predicate HasColumn(ps: seq<Piece>, c: int) {
    exists i :: 0 <= i < |ps| && OfColumn(ps[i], c)
  }

  lemma SomeLast(ps: seq<Piece>, c: Class)
    requires ps != []
    ensures Occurs(ps, c) <==> Occurs(ps[..|ps| - 1], c) || ps[|ps| - 1].kind == c
  {
    var q := ps[..|ps| - 1];
    if Occurs(q, c) {
      var i :| 0 <= i < |q| && q[i].kind == c;
      assert ps[i].kind == c;
    }
    if Occurs(ps, c) && ps[|ps| - 1].kind != c {
      var i :| 0 <= i < |ps| && ps[i].kind == c;
      assert q[i].kind == c;
    }
  }

  lemma ColumnLast(ps: seq<Piece>, c: int)
    requires ps != []
    ensures HasColumn(ps, c) <==> HasColumn(ps[..|ps| - 1], c) || OfColumn(ps[|ps| - 1], c)
  {
    var q := ps[..|ps| - 1];
    if HasColumn(q, c) {
      var i :| 0 <= i < |q| && OfColumn(q[i], c);
      assert OfColumn(ps[i], c);
    }
    if HasColumn(ps, c) && !OfColumn(ps[|ps| - 1], c) {
      var i :| 0 <= i < |ps| && OfColumn(ps[i], c);
      assert OfColumn(q[i], c);
    }
  }

  /** The columns there are, and their pads. */
  lemma {:induction false} CollectedColumn(ps: seq<Piece>, c: int)
    ensures c in Collect(ps) <==> HasColumn(ps, c)
    ensures ColumnAt(Collect(ps), c).pads == PadsOf(ps, c)
  {
    if ps != [] {
      CollectedColumn(ps[..|ps| - 1], c);
      ColumnLast(ps, c);
    }
  }

  lemma AddedPage(m: Columns, s: Piece, c: int, p: int)
    ensures p in ColumnAt(Add(m, s), c).pages <==>
              p in ColumnAt(m, c).pages || s.kind == Text(c, p) || s.kind == Data(c, p)
    ensures PageAt(ColumnAt(Add(m, s), c), p) ==
              if s.kind == Text(c, p) then PageAt(ColumnAt(m, c), p).(text := s.bytes)
              else if s.kind == Data(c, p) then PageAt(ColumnAt(m, c), p).(data := s.bytes)
              else PageAt(ColumnAt(m, c), p)
  {
  }

  /** The pages there are, and what is in them. */
  lemma {:induction false} CollectedPage(ps: seq<Piece>, c: int, p: int)
    ensures p in ColumnAt(Collect(ps), c).pages <==> HasPage(ps, c, p)
    ensures PageAt(ColumnAt(Collect(ps), c), p) == Page(Last(ps, Text(c, p)), Last(ps, Data(c, p)))
  {
    if ps != [] {
      var q := ps[..|ps| - 1];
      CollectedPage(q, c, p);
      AddedPage(Collect(q), ps[|ps| - 1], c, p);
      SomeLast(ps, Text(c, p));
      SomeLast(ps, Data(c, p));
    }
  }

  // ----- Order of sections ------------------------------------------------------------

  /** No two sections are of one text or data class. */
  ghost predicate Distinct(ps: seq<Piece>) {
    forall i, j :: 0 <= i < j < |ps| && ps[i].kind == ps[j].kind ==> ps[i].kind.Pad? || ps[i].kind.Other?
  }

  /** With distinct sections, the last of a class is the only one. */
  lemma {:induction false} LastIsOnly(ps: seq<Piece>, s: Piece)
    requires Distinct(ps) && (s.kind.Text? || s.kind.Data?) && s in ps
    ensures Last(ps, s.kind) == s.bytes
  {
    var n := |ps| - 1;
    var i :| 0 <= i < |ps| && ps[i] == s;
    if i < n {
      assert ps[..n][i] == s;
      LastIsOnly(ps[..n], s);
    }
  }

  lemma {:induction false} LastOfNone(ps: seq<Piece>, c: Class)
    requires !Occurs(ps, c)
    ensures Last(ps, c) == []
  {
    if ps != [] {
      SomeLast(ps, c);
      LastOfNone(ps[..|ps| - 1], c);
    }
  }

  /** The same sections, in whatever order. */
  ghost predicate SamePieces(ps: seq<Piece>, qs: seq<Piece>) {
    Distinct(ps) && Distinct(qs) && forall s :: s in ps <==> s in qs
  }

  lemma SameSome(ps: seq<Piece>, qs: seq<Piece>, c: Class)
    requires SamePieces(ps, qs) && Occurs(ps, c)
    ensures Occurs(qs, c)
  {
    var i :| 0 <= i < |ps| && ps[i].kind == c;
    assert ps[i] in qs;
  }

  lemma SameLast(ps: seq<Piece>, qs: seq<Piece>, c: Class)
    requires SamePieces(ps, qs) && (c.Text? || c.Data?)
    ensures Last(ps, c) == Last(qs, c) && (Occurs(ps, c) <==> Occurs(qs, c))
  {
    if Occurs(ps, c) {
      var i :| 0 <= i < |ps| && ps[i].kind == c;
      assert ps[i] in ps && ps[i] in qs;
      LastIsOnly(ps, ps[i]);
      LastIsOnly(qs, ps[i]);
      SameSome(ps, qs, c);
    } else {
      if Occurs(qs, c) {
        SameSome(qs, ps, c);
      }
      LastOfNone(ps, c);
      LastOfNone(qs, c);
    }
  }

  lemma SamePages(ps: seq<Piece>, qs: seq<Piece>, c: int)
    requires SamePieces(ps, qs)
    ensures ColumnAt(Collect(ps), c).pages == ColumnAt(Collect(qs), c).pages
  {
    var a, b := ColumnAt(Collect(ps), c), ColumnAt(Collect(qs), c);
    forall p
      ensures p in a.pages <==> p in b.pages
      ensures PageAt(a, p) == PageAt(b, p)
    {
      CollectedPage(ps, c, p);
      CollectedPage(qs, c, p);
      SameLast(ps, qs, Text(c, p));
      SameLast(ps, qs, Data(c, p));
    }
    PagesEqual(a, b);
  }

  lemma PagesEqual(a: Column, b: Column)
    requires forall p :: p in a.pages <==> p in b.pages
    requires forall p :: PageAt(a, p) == PageAt(b, p)
    ensures a.pages == b.pages
  {
    forall p
      ensures p in a.pages.Keys <==> p in b.pages.Keys
    {
    }
    forall p | p in a.pages
      ensures a.pages[p] == b.pages[p]
    {
      assert PageAt(a, p) == PageAt(b, p);
    }
  }

  lemma SameHasColumn(ps: seq<Piece>, qs: seq<Piece>, c: int)
    requires SamePieces(ps, qs) && HasColumn(ps, c)
    ensures HasColumn(qs, c)
  {
    var i :| 0 <= i < |ps| && OfColumn(ps[i], c);
    assert ps[i] in qs;
  }

  lemma ColumnsEqual(m: Columns, n: Columns)
    requires forall c :: c in m <==> c in n
    requires forall c :: ColumnAt(m, c) == ColumnAt(n, c)
    ensures m == n
  {
    forall c
      ensures c in m.Keys <==> c in n.Keys
    {
    }
    forall c | c in m
      ensures m[c] == n[c]
    {
      assert ColumnAt(m, c) == ColumnAt(n, c);
    }
  }

  /** Columns and pages do not depend on the order of distinct text and data sections: two
      lists of the same sections, with the same pads in the same order for every column, are
      collected into the same columns. */
  lemma AnyOrderSameColumns(ps: seq<Piece>, qs: seq<Piece>)
    requires SamePieces(ps, qs) && forall c :: PadsOf(ps, c) == PadsOf(qs, c)
    ensures Collect(ps) == Collect(qs)
  {
    forall c
      ensures c in Collect(ps) <==> c in Collect(qs)
      ensures ColumnAt(Collect(ps), c) == ColumnAt(Collect(qs), c)
    {
      CollectedColumn(ps, c);
      CollectedColumn(qs, c);
      SamePages(ps, qs, c);
      if HasColumn(ps, c) {
        SameHasColumn(ps, qs, c);
      } else if HasColumn(qs, c) {
        SameHasColumn(qs, ps, c);
      }
    }
    ColumnsEqual(Collect(ps), Collect(qs));
  }

  // ----- The code of a column ---------------------------------------------------------

  ghost predicate Ascending(ks: seq<int>) {
    forall i, j :: 0 <= i < j < |ks| ==> ks[i] < ks[j]
  }

  /** Pages in a given order. */
  function PagesCode(pages: map<int, Page>, ks: seq<int>): seq<Byte>
    requires forall i :: 0 <= i < |ks| ==> ks[i] in pages
  {
    if ks == [] then []
    else
      var n := |ks| - 1;
      PagesCode(pages, ks[..n]) + pages[ks[n]].text + pages[ks[n]].data
  }

  function Flat(bs: seq<seq<Byte>>): seq<Byte> {
    if bs == [] then [] else Flat(bs[..|bs| - 1]) + bs[|bs| - 1]
  }

  /** The code of a column whose pages, in ascending order, are `ks`. */
  function Code(col: Column, ks: seq<int>): seq<Byte>
    requires forall i :: 0 <= i < |ks| ==> ks[i] in col.pages
  {
    PagesCode(col.pages, ks) + Flat(col.pads)
  }

  function PagesSize(pages: map<int, Page>, ks: seq<int>): nat
    requires forall i :: 0 <= i < |ks| ==> ks[i] in pages
  {
    if ks == [] then 0
    else
      var n := |ks| - 1;
      PagesSize(pages, ks[..n]) + |pages[ks[n]].text| + |pages[ks[n]].data|
  }

  function FlatSize(bs: seq<seq<Byte>>): nat {
    if bs == [] then 0 else FlatSize(bs[..|bs| - 1]) + |bs[|bs| - 1]|
  }

  lemma {:induction false} PagesCodeSize(pages: map<int, Page>, ks: seq<int>)
    requires forall i :: 0 <= i < |ks| ==> ks[i] in pages
    ensures |PagesCode(pages, ks)| == PagesSize(pages, ks)
  {
    if ks != [] {
      PagesCodeSize(pages, ks[..|ks| - 1]);
    }
  }

  lemma {:induction false} FlatSizes(bs: seq<seq<Byte>>)
    ensures |Flat(bs)| == FlatSize(bs)
  {
    if bs != [] {
      FlatSizes(bs[..|bs| - 1]);
    }
  }

  /** Its length is the sum of the lengths of its parts. */
  lemma CodeSize(col: Column, ks: seq<int>)
    requires forall i :: 0 <= i < |ks| ==> ks[i] in col.pages
    ensures |Code(col, ks)| == PagesSize(col.pages, ks) + FlatSize(col.pads)
  {
    PagesCodeSize(col.pages, ks);
    FlatSizes(col.pads);
  }

  /** What stands in `code` from `o` on. */
  predicate StandsAt(code: seq<Byte>, o: nat, part: seq<Byte>) {
    o + |part| <= |code| && code[o..o + |part|] == part
  }

  lemma StandsStill(code: seq<Byte>, more: seq<Byte>, o: nat, part: seq<Byte>)
    requires StandsAt(code, o, part)
    ensures StandsAt(code + more, o, part)
  {
    assert (code + more)[o..o + |part|] == code[o..o + |part|];
  }

  lemma StandsAfter(before: seq<Byte>, code: seq<Byte>, o: nat, part: seq<Byte>)
    requires StandsAt(code, o, part)
    ensures StandsAt(before + code, |before| + o, part)
  {
    assert (before + code)[|before| + o..|before| + o + |part|] == code[o..o + |part|];
  }

  /** The text of a page, and its data where its text ends. */
  predicate PageStands(code: seq<Byte>, o: nat, page: Page) {
    StandsAt(code, o, page.text) && StandsAt(code, o + |page.text|, page.data)
  }

  lemma PageStandsStill(code: seq<Byte>, more: seq<Byte>, o: nat, page: Page)
    requires PageStands(code, o, page)
    ensures PageStands(code + more, o, page)
  {
    StandsStill(code, more, o, page.text);
    StandsStill(code, more, o + |page.text|, page.data);
  }

  lemma LastPageStands(before: seq<Byte>, page: Page)
    ensures PageStands(before + page.text + page.data, |before|, page)
  {
    StandsStill(before + page.text, page.data, |before|, page.text);
  }

  lemma {:induction false} PageInPlace(pages: map<int, Page>, ks: seq<int>, i: nat)
    requires i < |ks| && forall j :: 0 <= j < |ks| ==> ks[j] in pages
    ensures PageStands(PagesCode(pages, ks), PagesSize(pages, ks[..i]), pages[ks[i]])
    decreases |ks|
  {
    hide StandsAt, PageStands;
    var n := |ks| - 1;
    var before, page := PagesCode(pages, ks[..n]), pages[ks[n]];
    if i == n {
      PagesCodeSize(pages, ks[..n]);
      LastPageStands(before, page);
    } else {
      PageInPlace(pages, ks[..n], i);
      assert ks[..n][..i] == ks[..i];
      PageStandsStill(before, page.text, PagesSize(pages, ks[..i]), pages[ks[i]]);
      PageStandsStill(before + page.text, page.data, PagesSize(pages, ks[..i]), pages[ks[i]]);
    }
  }

  lemma {:induction false} PadInPlace(bs: seq<seq<Byte>>, j: nat)
    requires j < |bs|
    ensures StandsAt(Flat(bs), FlatSize(bs[..j]), bs[j])
    decreases |bs|
  {
    var n := |bs| - 1;
    if j == n {
      FlatSizes(bs[..n]);
    } else {
      PadInPlace(bs[..n], j);
      assert bs[..n][..j] == bs[..j];
      StandsStill(Flat(bs[..n]), bs[n], FlatSize(bs[..j]), bs[j]);
    }
  }

  /** Where everything stands in the code of a column: each page after the pages before it, its
      text in front of its data, and after all the pages each pad after the pads before it. */
  ghost predicate LaidOut(col: Column, ks: seq<int>, code: seq<Byte>)
    requires forall i :: 0 <= i < |ks| ==> ks[i] in col.pages
  {
    && |code| == PagesSize(col.pages, ks) + FlatSize(col.pads)
    && (forall i :: 0 <= i < |ks| ==> PageStands(code, PagesSize(col.pages, ks[..i]), col.pages[ks[i]]))
    && (forall j :: 0 <= j < |col.pads| ==>
          StandsAt(code, PagesSize(col.pages, ks) + FlatSize(col.pads[..j]), col.pads[j]))
  }

  lemma CodeLaidOut(col: Column, ks: seq<int>)
    requires forall i :: 0 <= i < |ks| ==> ks[i] in col.pages
    ensures LaidOut(col, ks, Code(col, ks))
  {
    hide StandsAt, PageStands, PagesCode, PagesSize, Flat, FlatSize;
    var pages, pads := PagesCode(col.pages, ks), Flat(col.pads);
    CodeSize(col, ks);
    PagesCodeSize(col.pages, ks);
    forall i | 0 <= i < |ks|
      ensures PageStands(pages + pads, PagesSize(col.pages, ks[..i]), col.pages[ks[i]])
    {
      PageInPlace(col.pages, ks, i);
      PageStandsStill(pages, pads, PagesSize(col.pages, ks[..i]), col.pages[ks[i]]);
    }
    forall j | 0 <= j < |col.pads|
      ensures StandsAt(pages + pads, |pages| + FlatSize(col.pads[..j]), col.pads[j])
    {
      PadInPlace(col.pads, j);
      StandsAfter(pages, pads, FlatSize(col.pads[..j]), col.pads[j]);
    }
  }

  lemma ButLast(ks: seq<int>, k: int)
    requires Ascending(ks) && ks != []
    ensures k in ks[..|ks| - 1] <==> k in ks && k < ks[|ks| - 1]
    ensures k in ks ==> k <= ks[|ks| - 1]
  {
    if k in ks {
      var i :| 0 <= i < |ks| && ks[i] == k;
      assert i < |ks| - 1 ==> ks[..|ks| - 1][i] == k;
    }
  }

  /** There is only one ascending order of the pages, so only one code. */
  lemma {:induction false} OneOrder(ks: seq<int>, js: seq<int>)
    requires Ascending(ks) && Ascending(js) && forall k :: k in ks <==> k in js
    ensures ks == js
    decreases |ks|
  {
    if ks == [] {
      assert forall i :: 0 <= i < |js| ==> js[i] in ks;
    } else {
      var a := ks[|ks| - 1];
      assert a in js;
      var b := js[|js| - 1];
      assert b in ks;
      ButLast(ks, b);
      ButLast(js, a);
      var ks1, js1 := ks[..|ks| - 1], js[..|js| - 1];
      forall k
        ensures k in ks1 <==> k in js1
      {
        ButLast(ks, k);
        ButLast(js, k);
      }
      OneOrder(ks1, js1);
      assert ks == ks1 + [a] && js == js1 + [b];
    }
  }

  // ----- Assembling it ----------------------------------------------------------------

  /** `append_bytes`, byte by byte. */
  method AppendBytes(dst: seq<Byte>, src: seq<Byte>) returns (r: seq<Byte>)
    ensures r == dst + src
  {
    r := dst;
    var i := 0;
    while i < |src|
      invariant 0 <= i <= |src| && r == dst + src[..i]
    {
      r := r + [src[i]];
      i := i + 1;
    }
    assert src[..i] == src;
  }

  /** `order` is the order in which the map of pages is gone through. */
  method Assemble(col: Column, order: seq<int>) returns (code: seq<Byte>)
    requires Ascending(order) && forall i :: 0 <= i < |order| ==> order[i] in col.pages
    requires forall p :: p in col.pages ==> p in order
    ensures LaidOut(col, order, code)
    ensures code == Code(col, order)
  {
    hide LaidOut;
    code := [];
    var i := 0;
    while i < |order|
      invariant 0 <= i <= |order| && code == PagesCode(col.pages, order[..i])
    {
      assert order[..i + 1][..i] == order[..i];
      assert order[i] in order;
      code := AppendBytes(code, col.pages[order[i]].text);
      code := AppendBytes(code, col.pages[order[i]].data);
      i := i + 1;
    }
    assert order[..i] == order;
    ghost var pages := code;
    i := 0;
    while i < |col.pads|
      invariant 0 <= i <= |col.pads| && code == pages + Flat(col.pads[..i])
    {
      assert col.pads[..i + 1][..i] == col.pads[..i];
      code := AppendBytes(code, col.pads[i]);
      i := i + 1;
    }
    assert col.pads[..i] == col.pads;
    CodeLaidOut(col, order);
  }

  /** Whatever order the distinct text and data sections come in, and however the ascending
      order of the pages is found, a column has the same code. */
  lemma AnyOrderSameCode(ps: seq<Piece>, qs: seq<Piece>, c: int, ks: seq<int>, js: seq<int>)
    requires SamePieces(ps, qs) && forall d :: PadsOf(ps, d) == PadsOf(qs, d)
    requires Ascending(ks) && forall k :: k in ks <==> HasPage(ps, c, k)
    requires Ascending(js) && forall k :: k in js <==> HasPage(qs, c, k)
    ensures forall i :: 0 <= i < |ks| ==> ks[i] in ColumnAt(Collect(ps), c).pages
    ensures forall i :: 0 <= i < |js| ==> js[i] in ColumnAt(Collect(qs), c).pages
    ensures Code(ColumnAt(Collect(ps), c), ks) == Code(ColumnAt(Collect(qs), c), js)
  {
    AnyOrderSameColumns(ps, qs);
    forall k
      ensures HasPage(ps, c, k) <==> k in ColumnAt(Collect(ps), c).pages
      ensures HasPage(qs, c, k) <==> k in ColumnAt(Collect(qs), c).pages
    {
      CollectedPage(ps, c, k);
      CollectedPage(qs, c, k);
    }
    OneOrder(ks, js);
  }
}
