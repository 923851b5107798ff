/**
 The names of dynamic symbols. A symbol of `.dynsym` gives the offset of its name in the string
 table `.dynstr`. The ELF loader does not use that offset: it cuts the table into its strings and
 takes the one at the symbol's own position.
 */
module DynamicNames {

  /** The string that begins at an offset: everything up to the next zero character. */
  function StringAt(tab: string, off: nat): (r: string)
    requires off <= |tab|
    ensures off + |r| <= |tab| && r == tab[off..off + |r|] && '\0' !in r
    ensures off + |r| < |tab| ==> tab[off + |r|] == '\0'
    decreases |tab| - off
  {
    if off == |tab| || tab[off] == '\0' then [] else [tab[off]] + StringAt(tab, off + 1)
  }

  /** The strings of the table from an offset on, in order. */
  function Strings(tab: string, off: nat): seq<string>
    decreases |tab| - off
  {
    if off >= |tab| then []
    else var s := StringAt(tab, off); [s] + Strings(tab, off + |s| + 1)
  }

  /** The strings of the whole table. */
  function Table(tab: string): seq<string> {
    Strings(tab, 0)
  }

  /** The inner loop: the length of one string. */
  method StringLength(tab: string, p: nat) returns (len: nat)
    requires p <= |tab|
    ensures len == |StringAt(tab, p)|
  {
    len := 0;
    while p + len < |tab| && tab[p + len] != '\0'
      invariant p + len <= |tab|
      invariant len + |StringAt(tab, p + len)| == |StringAt(tab, p)|
    {
      len := len + 1;
    }
  }

  lemma OneMore<T>(xs: seq<T>, x: T, rest: seq<T>)
    ensures xs + ([x] + rest) == (xs + [x]) + rest
  {
  }

  /** The loop over the section, which has to end with a zero character. */
  method ReadStrings(tab: string) returns (strs: seq<string>)
    requires tab != [] ==> tab[|tab| - 1] == '\0'
    ensures strs == Table(tab)
  {
    hide StringAt;
    strs := [];
    var p: nat := 0;
    while p < |tab|
      invariant strs + Strings(tab, p) == Strings(tab, 0)
    {
      var len := StringLength(tab, p);
      OneMore(strs, tab[p..p + len], Strings(tab, p + len + 1));
      strs := strs + [tab[p..p + len]];
      p := p + len + 1;
    }
  }

  /** A string begins at the start of the table and after every zero character. */
  predicate Begins(tab: string, off: nat) {
    off < |tab| && (off == 0 || tab[off - 1] == '\0')
  }

  /** Where string `k` begins. */
  function Start(tab: string, k: nat): (off: nat)
    ensures k > 0 ==> off > 0
  {
    if k == 0 then 0
    else
      var s := Start(tab, k - 1);
      if s <= |tab| then s + |StringAt(tab, s)| + 1 else s
  }

  lemma {:induction false} StringsFrom(tab: string, k: nat)
    requires k <= |Table(tab)|
    ensures Table(tab)[k..] == Strings(tab, Start(tab, k))
  {
    hide StringAt;
    if k > 0 {
      StringsFrom(tab, k - 1);
      assert Table(tab)[k..] == Table(tab)[k - 1..][1..];
    }
  }

  lemma HeadOf(tab: string, off: nat, strs: seq<string>)
    requires strs == Strings(tab, off) && strs != []
    ensures off < |tab| && strs[0] == StringAt(tab, off)
  {
  }

  lemma NextBegins(tab: string, s: nat)
    requires s < |tab| && s + |StringAt(tab, s)| + 1 < |tab|
    ensures Begins(tab, s + |StringAt(tab, s)| + 1)
  {
  }

  /** The string at position `k` is the one that begins there. */
  lemma KthString(tab: string, k: nat)
    requires k < |Table(tab)|
    ensures Begins(tab, Start(tab, k)) && Table(tab)[k] == StringAt(tab, Start(tab, k))
  {
    hide StringAt, Strings, Table;
    StringsFrom(tab, k);
    HeadOf(tab, Start(tab, k), Table(tab)[k..]);
    if k > 0 {
      StringsFrom(tab, k - 1);
      HeadOf(tab, Start(tab, k - 1), Table(tab)[k - 1..]);
      NextBegins(tab, Start(tab, k - 1));
    }
  }

  /** Within a string, none begins. */
  lemma NoneInside(tab: string, s: nat, off: nat)
    requires s < |tab| && s < off && Begins(tab, off)
    ensures off > s + |StringAt(tab, s)|
  {
    forall x | s <= x < s + |StringAt(tab, s)|
      ensures tab[x] != '\0'
    {
      assert tab[x] == StringAt(tab, s)[x - s];
    }
  }

  /** And wherever a string begins, it has a position. */
  lemma {:induction false} PositionFrom(tab: string, off: nat, k: nat) returns (j: nat)
    requires Begins(tab, off) && k < |Table(tab)| && Start(tab, k) <= off
    ensures j < |Table(tab)| && Start(tab, j) == off
    decreases |Table(tab)| - k
  {
    hide StringAt, Table;
    KthString(tab, k);
    var s := Start(tab, k);
    if s == off {
      j := k;
    } else {
      NoneInside(tab, s, off);
      StringsFrom(tab, k + 1);
      j := PositionFrom(tab, off, k + 1);
    }
  }

  lemma Position(tab: string, off: nat) returns (j: nat)
    requires Begins(tab, off)
    ensures j < |Table(tab)| && Start(tab, j) == off
  {
    j := PositionFrom(tab, off, 0);
  }

  predicate Distinct(strs: seq<string>) {
    forall i, j :: 0 <= i < j < |strs| ==> strs[i] != strs[j]
  }

  /** For every string table without repetitions and every symbol whose name begins one of its
      strings, the loader finds the symbol's own name if and only if that string stands in the
      table where the symbol stands among the symbols. */
  lemma OwnNameIff(tab: string, k: nat, off: nat)
    requires Distinct(Table(tab)) && Begins(tab, off) && k < |Table(tab)|
    ensures Table(tab)[k] == StringAt(tab, off) <==> off == Start(tab, k)
  {
    KthString(tab, k);
    hide Strings, StringAt, Table;
    var j := Position(tab, off);
    KthString(tab, j);
    assert j != k ==> Table(tab)[j] != Table(tab)[k];
  }

  /** Every symbol gets its own name. */
  predicate OwnNames(tab: string, names: seq<nat>) {
    && |names| <= |Table(tab)|
    && forall k :: 0 <= k < |names| ==> names[k] <= |tab| && Table(tab)[k] == StringAt(tab, names[k])
  }

  /** For the whole symbol table: if and only if its names are the first strings of the table,
      in order. */
  lemma OwnNamesIff(tab: string, names: seq<nat>)
    requires Distinct(Table(tab))
    requires forall k :: 0 <= k < |names| ==> Begins(tab, names[k])
    ensures OwnNames(tab, names) <==>
            && |names| <= |Table(tab)|
            && forall k :: 0 <= k < |names| ==> names[k] == Start(tab, k)
  {
    forall k | 0 <= k < |names| && k < |Table(tab)|
      ensures Table(tab)[k] == StringAt(tab, names[k]) <==> names[k] == Start(tab, k)
    {
      OwnNameIff(tab, k, names[k]);
    }
  }

  /** Two symbols whose names stand the other way round are taken for each other. */
  lemma SwappedNames()
    ensures var tab, names := "\0a\0b\0", [0, 3, 1];
            && StringAt(tab, names[1]) == "b" && Table(tab)[1] == "a"
            && StringAt(tab, names[2]) == "a" && Table(tab)[2] == "b"
  {
    var tab := "\0a\0b\0";
    assert StringAt(tab, 0) == "";
    assert StringAt(tab, 1) == "a";
    assert StringAt(tab, 3) == "b";
    assert Strings(tab, 3) == ["b"] + Strings(tab, 5);
    assert Strings(tab, 1) == ["a"] + Strings(tab, 3);
    assert Table(tab) == [""] + Strings(tab, 1);
  }
}
