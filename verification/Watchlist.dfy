/** The stored watchlists: entries by date, validated and replaced as a whole. */
module Watchlist {
  import opened Ordering

  datatype Entry = Entry(symbol: string, rank: int, totalScore: real)

  /** White space as `strip` sees it. */
  predicate IsSpace(c: char) {
    var n := c as int;
    || 0x09 <= n <= 0x0D || 0x1C <= n <= 0x20 || n == 0x85 || n == 0xA0 || n == 0x1680 || 0x2000 <= n <= 0x200A
    || n == 0x2028 || n == 0x2029 || n == 0x202F || n == 0x205F || n == 0x3000
  }

  predicate Blank(s: string) { forall c :: c in s ==> IsSpace(c) }

  function StripLeft(s: string): (r: string)
    ensures |r| <= |s|
  {
    if s != [] && IsSpace(s[0]) then StripLeft(s[1..]) else s
  }

  /** The string without the white space around it. */
  function Strip(s: string): string
    decreases |s|
  {
    var t := StripLeft(s);
    if t != [] && IsSpace(t[|t| - 1]) then Strip(t[..|t| - 1]) else t
  }

  /** A symbol is blank when stripping it leaves nothing. */
  lemma {:induction false} BlankIsStripped(s: string)
    ensures Blank(s) <==> Strip(s) == []
    decreases |s|
  {
    StripLeftKeeps(s);
    var t := StripLeft(s);
    if t != [] && IsSpace(t[|t| - 1]) {
      BlankIsStripped(t[..|t| - 1]);
      assert t == t[..|t| - 1] + [t[|t| - 1]];
    }
  }

  lemma {:induction false} StripLeftKeeps(s: string)
    ensures Blank(s) <==> StripLeft(s) == []
    ensures StripLeft(s) != [] ==> !IsSpace(StripLeft(s)[0])
    ensures Blank(StripLeft(s)) == Blank(s)
  {
    if s != [] && IsSpace(s[0]) {
      StripLeftKeeps(s[1..]);
      assert s == [s[0]] + s[1..];
    }
  }

  predicate DistinctSymbols(entries: seq<Entry>) {
    forall i, j :: 0 <= i < j < |entries| ==> entries[i].symbol != entries[j].symbol
  }

  predicate DistinctRanks(entries: seq<Entry>) {
    forall i, j :: 0 <= i < j < |entries| ==> entries[i].rank != entries[j].rank
  }

  /** What a save demands of the candidates. */
  predicate ValidEntries(entries: seq<Entry>) {
    (forall e :: e in entries ==> !Blank(e.symbol)) && DistinctSymbols(entries) && DistinctRanks(entries)
  }

  /** The check before a save: grows the sets of symbols and ranks seen so far. */
  method Validate(entries: seq<Entry>) returns (ok: bool)
    ensures ok <==> ValidEntries(entries)
  {
    var symbols: set<string>, ranks: set<int> := {}, {};
    for i := 0 to |entries|
      invariant symbols == set j | 0 <= j < i :: entries[j].symbol
      invariant ranks == set j | 0 <= j < i :: entries[j].rank
      invariant ValidEntries(entries[..i])
    {
      var e := entries[i];
      assert entries[..i + 1] == entries[..i] + [e];
      assert e in entries;
      if Blank(e.symbol) {
        return false;
      }
      if e.symbol in symbols {
        return false;
      }
      if e.rank in ranks {
        return false;
      }
      symbols, ranks := symbols + {e.symbol}, ranks + {e.rank};
    }
    assert entries[..|entries|] == entries;
    return true;
  }

  predicate RankLeq(a: Entry, b: Entry) { a.rank <= b.rank }

  /** What reading a date returns: its entries by ascending rank. */
  function Listed(entries: seq<Entry>): seq<Entry> { Sort(entries, RankLeq) }

  lemma RankLeqTotal()
    ensures TotalPreorder(RankLeq)
  {}

  /** Reading returns the same list for any arrangement of the stored rows. */
  lemma ListedIsCanonical(a: seq<Entry>, b: seq<Entry>)
    requires DistinctRanks(a) && multiset(a) == multiset(b)
    ensures Listed(a) == Listed(b)
  {
    RankLeqTotal();
    assert NoTies(a, RankLeq);
    SortPermutation(a, b, RankLeq);
  }
}
