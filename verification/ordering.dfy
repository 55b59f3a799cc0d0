/** Ordering of yearly records: the ascending sort both trend tables apply
    before building rows, and the minimum year chosen as the baseline. */
module Ordering {
  import opened Records

  /** The set of years present in a collection of records. */
  function Years(s: seq<YearlyRecord>): set<int> {
    set r | r in s :: r.year
  }

  predicate Ascending(s: seq<YearlyRecord>) {
    forall i, j :: 0 <= i < j < |s| ==> s[i].year <= s[j].year
  }

  predicate StrictlyAscending(s: seq<YearlyRecord>) {
    forall i, j :: 0 <= i < j < |s| ==> s[i].year < s[j].year
  }

  /** The database's key constraint: no two records share a year. */
  predicate UniqueYears(s: seq<YearlyRecord>) {
    forall i, j :: 0 <= i < j < |s| ==> s[i].year != s[j].year
  }

  /** The first record of an ascending sequence has the smallest year, and
      the strictly smallest when the sequence is strictly ascending. */
  lemma HeadIsLeast(s: seq<YearlyRecord>)
    requires |s| > 0 && Ascending(s)
    ensures forall e :: e in s ==> s[0].year <= e.year
    ensures StrictlyAscending(s) ==> forall e :: e in s[1..] ==> s[0].year < e.year
  {
    forall e | e in s ensures s[0].year <= e.year {
      var k :| 0 <= k < |s| && s[k] == e;
    }
    if StrictlyAscending(s) {
      forall e | e in s[1..] ensures s[0].year < e.year {
        var k :| 0 <= k < |s[1..]| && s[1..][k] == e;
        assert s[k + 1] == e;
      }
    }
  }

  /** Dropping the first record keeps the order. */
  lemma TailKeepsOrder(s: seq<YearlyRecord>)
    requires |s| > 0
    ensures Ascending(s) ==> Ascending(s[1..])
    ensures StrictlyAscending(s) ==> StrictlyAscending(s[1..])
  {
  }

  /** Putting a record no later than every record of an ascending sequence
      in front of it keeps the sequence ascending (strictly, when it is
      strictly earlier and the rest is strictly ascending). */
  lemma ConsAscending(h: YearlyRecord, t: seq<YearlyRecord>)
    requires Ascending(t)
    requires forall e :: e in t ==> h.year <= e.year
    ensures Ascending([h] + t)
    ensures StrictlyAscending(t) && (forall e :: e in t ==> h.year < e.year) ==> StrictlyAscending([h] + t)
  {
    var r := [h] + t;
    forall i, j | 0 <= i < j < |r| ensures r[i].year <= r[j].year {
      assert r[j] == t[j - 1];
      if i > 0 {
        assert r[i] == t[i - 1];
      } else {
        assert t[j - 1] in t;
      }
    }
    if StrictlyAscending(t) && (forall e :: e in t ==> h.year < e.year) {
      forall i, j | 0 <= i < j < |r| ensures r[i].year < r[j].year {
        assert r[j] == t[j - 1];
        if i > 0 {
          assert r[i] == t[i - 1];
        } else {
          assert t[j - 1] in t;
        }
      }
    }
  }

  /** Putting back the first record in front of the tail with `x` added
      gives the whole sequence with `x` added. */
  lemma ConsKeepsContents(x: YearlyRecord, s: seq<YearlyRecord>, t: seq<YearlyRecord>)
    requires |s| > 0
    requires multiset(t) == multiset(s[1..]) + multiset{x}
    requires forall e :: e in t <==> e == x || e in s[1..]
    ensures multiset([s[0]] + t) == multiset(s) + multiset{x}
    ensures forall e :: e in [s[0]] + t <==> e == x || e in s
  {
    assert s == [s[0]] + s[1..];
  }

  /** Inserts `x` into an ascending sequence ahead of every record of the
      same year, so that earlier input stays earlier. */
  function Insert(x: YearlyRecord, s: seq<YearlyRecord>): (r: seq<YearlyRecord>)
    requires Ascending(s)
    ensures |r| == |s| + 1
    ensures multiset(r) == multiset(s) + multiset{x}
    ensures forall e :: e in r <==> e == x || e in s
    ensures Ascending(r)
  {
    if |s| == 0 then [x]
    else
      HeadIsLeast(s);
      if x.year <= s[0].year then
        ConsAscending(x, s);
        [x] + s
      else
        TailKeepsOrder(s);
        var t := Insert(x, s[1..]);
        ConsAscending(s[0], t);
        ConsKeepsContents(x, s, t);
        [s[0]] + t
  }

  /** Inserting a record whose year is new into a strictly ascending
      sequence keeps it strictly ascending. */
  lemma {:induction false} InsertKeepsStrict(x: YearlyRecord, s: seq<YearlyRecord>)
    requires StrictlyAscending(s)
    requires forall e :: e in s ==> e.year != x.year
    ensures StrictlyAscending(Insert(x, s))
  {
    if |s| > 0 {
      HeadIsLeast(s);
      if x.year <= s[0].year {
        ConsAscending(x, s);
      } else {
        TailKeepsOrder(s);
        assert forall e :: e in s[1..] ==> e in s;
        InsertKeepsStrict(x, s[1..]);
        ConsAscending(s[0], Insert(x, s[1..]));
      }
    }
  }

  /** The records ordered by ascending year (pandas `sort_values("year")`),
      the same records and as many of them, strictly ascending when the
      years are unique. Records of equal year keep their input order. */
  function SortByYear(s: seq<YearlyRecord>): (r: seq<YearlyRecord>)
    ensures |r| == |s|
    ensures multiset(r) == multiset(s)
    ensures forall e :: e in r <==> e in s
    ensures Ascending(r)
    ensures UniqueYears(s) ==> StrictlyAscending(r)
  {
    if |s| == 0 then []
    else
      var t := SortByYear(s[1..]);
      assert s == [s[0]] + s[1..];
      assert UniqueYears(s) ==> forall e :: e in t ==> e.year != s[0].year by {
        if UniqueYears(s) {
          forall e | e in t ensures e.year != s[0].year {
            var k :| 0 <= k < |s[1..]| && s[1..][k] == e;
            assert s[k + 1] == e;
          }
        }
      }
      assert UniqueYears(s) ==> UniqueYears(s[1..]) by {
        if UniqueYears(s) {
          forall i, j | 0 <= i < j < |s[1..]| ensures s[1..][i].year != s[1..][j].year {
            assert s[1..][i] == s[i + 1] && s[1..][j] == s[j + 1];
          }
        }
      }
      assert UniqueYears(s) ==> StrictlyAscending(Insert(s[0], t)) by {
        if UniqueYears(s) {
          InsertKeepsStrict(s[0], t);
        }
      }
      Insert(s[0], t)
  }

  /** Two strictly ascending arrangements of the same records start with
      the same record. */
  lemma SameLeast(a: seq<YearlyRecord>, b: seq<YearlyRecord>)
    requires StrictlyAscending(a) && StrictlyAscending(b)
    requires multiset(a) == multiset(b) && |a| > 0
    ensures |b| == |a| && a[0] == b[0]
  {
    assert |b| == |multiset(b)| == |multiset(a)| == |a|;
    assert a[0] in multiset(b);
    var k :| 0 <= k < |b| && b[k] == a[0];
    assert b[0] in multiset(a);
    var m :| 0 <= m < |a| && a[m] == b[0];
    assert a[0].year <= a[m].year == b[0].year <= b[k].year == a[0].year;
    assert k == 0;
  }

  /** Two strictly ascending arrangements of the same records are the same
      sequence. */
  lemma {:induction false} StrictlyAscendingPermutationsEqual(a: seq<YearlyRecord>, b: seq<YearlyRecord>)
    requires StrictlyAscending(a) && StrictlyAscending(b)
    requires multiset(a) == multiset(b)
    ensures a == b
  {
    if |a| == 0 {
      assert |b| == |multiset(b)| == 0;
    } else {
      SameLeast(a, b);
      assert a == [a[0]] + a[1..];
      assert b == [b[0]] + b[1..];
      assert multiset(a) == multiset{a[0]} + multiset(a[1..]);
      assert multiset(b) == multiset{b[0]} + multiset(b[1..]);
      assert multiset(a[1..]) == multiset(a) - multiset{a[0]};
      assert multiset(b[1..]) == multiset(b) - multiset{b[0]};
      TailKeepsOrder(a);
      TailKeepsOrder(b);
      StrictlyAscendingPermutationsEqual(a[1..], b[1..]);
    }
  }

  /** With unique years the sorted table does not depend on the sorting
      algorithm: any strictly ascending rearrangement of the input is the
      one SortByYear produces (pandas' default sort is not stable, so this
      is what makes the choice of a stable sort here immaterial). */
  lemma SortIsCanonical(s: seq<YearlyRecord>, t: seq<YearlyRecord>)
    requires UniqueYears(s)
    requires StrictlyAscending(t) && multiset(t) == multiset(s)
    ensures t == SortByYear(s)
  {
    StrictlyAscendingPermutationsEqual(t, SortByYear(s));
  }

  /** The table a builder produces: `f` applied to every record, in
      ascending year order. */
  function SortedRows<R>(records: seq<YearlyRecord>, f: YearlyRecord -> R): (rows: seq<R>)
    ensures |rows| == |records|
    ensures forall i :: 0 <= i < |rows| ==> rows[i] == f(SortByYear(records)[i])
  {
    var sorted := SortByYear(records);
    seq(|sorted|, i requires 0 <= i < |sorted| => f(sorted[i]))
  }

  /** No row of a sorted table is synthesised: each row comes from some
      input record. */
  lemma SortedRowsFromRecords<R>(records: seq<YearlyRecord>, f: YearlyRecord -> R)
    ensures var rows := SortedRows(records, f);
      forall i :: 0 <= i < |rows| ==> exists k :: 0 <= k < |records| && rows[i] == f(records[k])
  {
    var sorted := SortByYear(records);
    var rows := SortedRows(records, f);
    forall i | 0 <= i < |rows|
      ensures exists k :: 0 <= k < |records| && rows[i] == f(records[k])
    {
      assert sorted[i] in records;
      var k :| 0 <= k < |records| && records[k] == sorted[i];
    }
  }

  /** No record is dropped from a sorted table: each input record
      contributes a row. */
  lemma RecordsInSortedRows<R>(records: seq<YearlyRecord>, f: YearlyRecord -> R)
    ensures var rows := SortedRows(records, f);
      forall k :: 0 <= k < |records| ==> exists i :: 0 <= i < |rows| && rows[i] == f(records[k])
  {
    var sorted := SortByYear(records);
    var rows := SortedRows(records, f);
    forall k | 0 <= k < |records|
      ensures exists i :: 0 <= i < |rows| && rows[i] == f(records[k])
    {
      assert records[k] in sorted;
      var i :| 0 <= i < |sorted| && sorted[i] == records[k];
    }
  }

  /** The smallest year among the records (the dashboard's baseline year). */
  function MinYear(s: seq<YearlyRecord>): (y: int)
    requires |s| > 0
    ensures y in Years(s)
    ensures forall i :: 0 <= i < |s| ==> y <= s[i].year
  {
    if |s| == 1 then s[0].year
    else
      var m := MinYear(s[1..]);
      assert forall e :: e in s[1..] ==> e in s;
      if s[0].year <= m then s[0].year
      else
        assert forall i :: 1 <= i < |s| ==> s[i] == s[1..][i - 1];
        m
  }

  /** An ascending arrangement of the records starts at the smallest year. */
  lemma MinYearLeadsAscending(s: seq<YearlyRecord>, t: seq<YearlyRecord>)
    requires |s| > 0 && |t| > 0 && Ascending(t)
    requires forall e :: e in t <==> e in s
    ensures MinYear(s) == t[0].year
  {
    var y := MinYear(s);
    assert t[0] in s;
    var j :| 0 <= j < |s| && s[j] == t[0];
    var e :| e in s && e.year == y;
    HeadIsLeast(t);
    assert t[0].year <= e.year;
  }

  /** The baseline year is the year of the first row of the ascending
      historical table. */
  lemma MinYearIsFirstSorted(s: seq<YearlyRecord>)
    requires |s| > 0
    ensures MinYear(s) == SortByYear(s)[0].year
  {
    MinYearLeadsAscending(s, SortByYear(s));
  }
}
