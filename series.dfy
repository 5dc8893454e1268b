/**
 * A provider time series and its normalisation
 * (Financial-advisor/Backend/routes/stocks.js): the series object's keys are
 * timestamps; `Object.keys(series).sort().reverse()` puts them newest first
 * and `.slice(0, n)` keeps the n newest.
 *
 * A JSON object is modelled as the sequence of its (key, record) entries in the
 * object's own order; JavaScript objects never repeat a key (DistinctKeys).
 * Sorting the entries by key is the same as sorting the keys and looking each
 * one up.
 */
module Series {
  import opened Base
  import opened Quotes

  /** One record of a series, fields as `parseFloat` reads them from
      '1. open', '2. high', '3. low' and '4. close'; '5. volume' is passed on as
      the provider wrote it (None when the record has no such field). */
  datatype Quote = Quote(open: Num, high: Num, low: Num, close: Num, volume: Option<string>)

  datatype Entry = Entry(key: string, quote: Quote)

  predicate DistinctKeys(s: seq<Entry>)
  {
    forall i, j :: 0 <= i < j < |s| ==> s[i].key != s[j].key
  }

  /** Each key is greater than the next one. */
  predicate AdjacentDescending(s: seq<Entry>)
  {
    forall i :: 0 < i < |s| ==> LexLess(s[i].key, s[i - 1].key)
  }

  /** Strictly descending by key: newest first. */
  predicate Descending(s: seq<Entry>)
  {
    forall i, j :: 0 <= i < j < |s| ==> LexLess(s[j].key, s[i].key)
  }

  /** Puts `e` into a series already sorted newest first. */
  function Insert(e: Entry, s: seq<Entry>): (r: seq<Entry>)
    ensures multiset(r) == multiset(s) + multiset{e}
    ensures |r| == |s| + 1
    ensures r[0] == e || (s != [] && r[0] == s[0])
  {
    if s == [] then [e]
    else if LexLess(s[0].key, e.key) then [e] + s
    else
      assert s == [s[0]] + s[1..];
      [s[0]] + Insert(e, s[1..])
  }

  lemma AdjacentTail(s: seq<Entry>)
    requires s != [] && AdjacentDescending(s)
    ensures AdjacentDescending(s[1..])
  {
    var t := s[1..];
    forall i | 0 < i < |t| ensures LexLess(t[i].key, t[i - 1].key) {
      assert t[i] == s[i + 1] && t[i - 1] == s[i];
    }
  }

  lemma AdjacentCons(h: Entry, rest: seq<Entry>)
    requires AdjacentDescending(rest) && (rest != [] ==> LexLess(rest[0].key, h.key))
    ensures AdjacentDescending([h] + rest)
  {
    var r := [h] + rest;
    forall i | 0 < i < |r| ensures LexLess(r[i].key, r[i - 1].key) {
      if i > 1 {
        assert r[i] == rest[i - 1] && r[i - 1] == rest[i - 2];
      }
    }
  }

  /** Inserting an entry with a new key into a newest-first series keeps it
      newest first. */
  lemma {:induction false} InsertKeepsOrder(e: Entry, s: seq<Entry>)
    ensures AdjacentDescending(s) && (forall x :: x in s ==> x.key != e.key) ==> AdjacentDescending(Insert(e, s))
  {
    if s != [] && AdjacentDescending(s) && (forall x :: x in s ==> x.key != e.key) {
      if LexLess(s[0].key, e.key) {
        AdjacentCons(e, s);
      } else {
        assert s[0] in s;
        LexLessTotal(s[0].key, e.key);
        var t := s[1..];
        AdjacentTail(s);
        assert forall x :: x in t ==> x in s;
        InsertKeepsOrder(e, t);
        var rest := Insert(e, t);
        assert s == [s[0]] + t;
        assert rest[0] == e || rest[0] == s[1];
        AdjacentCons(s[0], rest);
      }
    }
  }

  /** `Object.keys(series).sort().reverse()`, carrying each key's record along. */
  function SortDesc(s: seq<Entry>): (r: seq<Entry>)
    ensures multiset(r) == multiset(s)
    ensures |r| == |s|
    ensures DistinctKeys(s) ==> AdjacentDescending(r)
  {
    if s == [] then []
    else
      var rest := SortDesc(s[1..]);
      assert s == [s[0]] + s[1..];
      DistinctTail(s, rest);
      InsertKeepsOrder(s[0], rest);
      Insert(s[0], rest)
  }

  lemma DistinctTail(s: seq<Entry>, rest: seq<Entry>)
    requires s != [] && multiset(rest) == multiset(s[1..])
    ensures DistinctKeys(s) ==> DistinctKeys(s[1..]) && forall x :: x in rest ==> x.key != s[0].key
  {
    if DistinctKeys(s) {
      forall x | x in rest ensures x.key != s[0].key {
        assert x in multiset(s[1..]);
        var j :| 0 <= j < |s[1..]| && s[1..][j] == x;
        assert s[j + 1] == x;
      }
    }
  }

  lemma {:induction false} AdjacentToPairwise(s: seq<Entry>)
    requires AdjacentDescending(s)
    ensures Descending(s)
  {
    if |s| > 1 {
      AdjacentToPairwise(s[1..]);
      forall j | 1 < j < |s| ensures LexLess(s[j].key, s[0].key) {
        LexLessTransitive(s[j].key, s[1].key, s[0].key);
      }
    }
  }

  /** Sorting a series (an object's entries, so with distinct keys) yields the
      same entries, strictly descending by key. */
  lemma SortDescNewestFirst(s: seq<Entry>)
    requires DistinctKeys(s)
    ensures Descending(SortDesc(s))
    ensures forall x :: x in SortDesc(s) <==> x in s
  {
    var r := SortDesc(s);
    AdjacentToPairwise(r);
    assert forall x :: x in r <==> x in multiset(r);
  }

  /** The n newest entries: `.slice(0, n)` of the sorted series. */
  function Newest(s: seq<Entry>, n: nat): (r: seq<Entry>)
    ensures |r| == if n < |s| then n else |s|
  {
    var r := SortDesc(s);
    if n < |r| then r[..n] else r
  }

  /** The head of the sorted series is newer than everything else in it. */
  predicate IsNewestOf(e: Entry, s: seq<Entry>)
  {
    e in s && forall x :: x in s && x != e ==> LexLess(x.key, e.key)
  }

  /** The n newest entries are strictly descending, come from the series, and
      every entry left out is older than every entry kept. */
  lemma NewestAreTheNewest(s: seq<Entry>, n: nat)
    requires DistinctKeys(s)
    ensures Descending(Newest(s, n))
    ensures forall x :: x in Newest(s, n) ==> x in s
    ensures forall x, y :: x in s && x !in Newest(s, n) && y in Newest(s, n) ==> LexLess(x.key, y.key)
  {
    var r := SortDesc(s);
    SortDescNewestFirst(s);
    var k := if n < |r| then n else |r|;
    assert Newest(s, n) == r[..k];
    forall x, y | x in s && x !in r[..k] && y in r[..k] ensures LexLess(x.key, y.key) {
      var i :| 0 <= i < k && r[i] == y;
      var j :| 0 <= j < |r| && r[j] == x;
      assert j >= k;
    }
  }

  /** The first entry of the sorted series has the greatest key. */
  lemma SortDescHeadIsNewest(s: seq<Entry>)
    requires DistinctKeys(s) && s != []
    ensures IsNewestOf(SortDesc(s)[0], s)
  {
    var r := SortDesc(s);
    SortDescNewestFirst(s);
    forall x | x in s && x != r[0] ensures LexLess(x.key, r[0].key) {
      var j :| 0 <= j < |r| && r[j] == x;
    }
  }

  /** With two or more entries, the second of the sorted series is newer than
      everything but the first. */
  lemma SortDescSecondIsNextNewest(s: seq<Entry>)
    requires DistinctKeys(s) && |s| >= 2
    ensures LexLess(SortDesc(s)[1].key, SortDesc(s)[0].key)
    ensures IsNewestOf(SortDesc(s)[1], SortDesc(s)[1..])
    ensures forall x :: x in s && x != SortDesc(s)[0] ==> x in SortDesc(s)[1..]
  {
    var r := SortDesc(s);
    SortDescNewestFirst(s);
    var t := r[1..];
    assert t[0] == r[1];
    forall x | x in s && x != r[0] ensures x in t {
      assert x in r;
      var j :| 0 <= j < |r| && r[j] == x;
      assert j != 0 && t[j - 1] == x;
    }
    forall x | x in t && x != r[1] ensures LexLess(x.key, r[1].key) {
      var j :| 0 <= j < |t| && t[j] == x;
      assert r[j + 1] == x && j != 0;
    }
  }

}
