/**
 * What `renderExpenses` shows: the records whose lower-cased title contains
 * the lower-cased search text, most recent date first, each with its badge
 * class and display texts. Everything here is a pure function of the list.
 */
module View {
  import opened Strings
  import opened Expenses

  /** The search test: the lower-cased title contains the lower-cased search text. */
  predicate MatchesFilter(e: Expense, filter: string) {
    Contains(Lower(e.title), Lower(filter))
  }

  /** The records that pass the search test, in list order. */
  function FilterByTitle(list: seq<Expense>, filter: string): (r: seq<Expense>)
    ensures |r| <= |list|
    ensures forall e :: e in r ==> e in list && MatchesFilter(e, filter)
  {
    if list == [] then []
    else (if MatchesFilter(list[0], filter) then [list[0]] else []) + FilterByTitle(list[1..], filter)
  }

  /** The filter keeps exactly the matching records, each as often as it occurs. */
  lemma {:induction false} FilterByTitleExact(list: seq<Expense>, filter: string)
    ensures forall e :: multiset(FilterByTitle(list, filter))[e] ==
                        if MatchesFilter(e, filter) then multiset(list)[e] else 0
  {
    if list != [] {
      FilterByTitleExact(list[1..], filter);
      assert list == [list[0]] + list[1..];
    }
  }

  /** An empty search keeps every record, in order. */
  lemma {:induction false} EmptyFilterKeepsAll(list: seq<Expense>)
    ensures FilterByTitle(list, []) == list
  {
    if list != [] {
      ContainsEmpty(Lower(list[0].title));
      EmptyFilterKeepsAll(list[1..]);
    }
  }

  /**
   * The date order. Dates are `yyyy-mm-dd` texts, so comparing them
   * character by character orders them as `new Date(...)` would.
   */
  predicate DateBefore(a: string, b: string) {
    if a == [] then b != []
    else b != [] && (a[0] < b[0] || (a[0] == b[0] && DateBefore(a[1..], b[1..])))
  }

  lemma {:induction false} DateBeforeIrreflexive(a: string)
    ensures !DateBefore(a, a)
  {
    if a != [] { DateBeforeIrreflexive(a[1..]); }
  }

  lemma {:induction false} DateBeforeTransitive(a: string, b: string, c: string)
    requires DateBefore(a, b) && DateBefore(b, c)
    ensures DateBefore(a, c)
  {
    if a != [] && a[0] == b[0] && b[0] == c[0] {
      DateBeforeTransitive(a[1..], b[1..], c[1..]);
    }
  }

  lemma {:induction false} DateBeforeTotal(a: string, b: string)
    ensures a == b || DateBefore(a, b) || DateBefore(b, a)
  {
    if a != [] && b != [] && a[0] == b[0] {
      DateBeforeTotal(a[1..], b[1..]);
      if a[1..] == b[1..] {
        assert a == [a[0]] + a[1..] && b == [b[0]] + b[1..];
      }
    }
  }

  /** Not earlier than: the "goes first or ties" relation of the descending sort. */
  predicate NotEarlier(x: Expense, y: Expense) {
    !DateBefore(x.date, y.date)
  }

  lemma NotEarlierTransitive(a: Expense, b: Expense, c: Expense)
    requires NotEarlier(a, b) && NotEarlier(b, c)
    ensures NotEarlier(a, c)
  {
    DateBeforeTotal(a.date, b.date);
    DateBeforeTotal(b.date, c.date);
    if DateBefore(a.date, c.date) {
      if a.date == b.date {
      } else if b.date == c.date {
      } else {
        DateBeforeTransitive(c.date, b.date, a.date);
        DateBeforeTransitive(a.date, c.date, a.date);
        DateBeforeIrreflexive(a.date);
      }
    }
  }

  /** Most recent first: no record is earlier than one after it. */
  predicate SortedByDate(s: seq<Expense>) {
    forall i, j :: 0 <= i < j < |s| ==> NotEarlier(s[i], s[j])
  }

  /** Inserts x before the first record that is not later than it, so x stays ahead of its ties. */
  function Insert(x: Expense, t: seq<Expense>): (r: seq<Expense>)
    ensures multiset(r) == multiset(t) + multiset{x}
  {
    if t == [] || NotEarlier(x, t[0]) then [x] + t
    else assert t == [t[0]] + t[1..]; [t[0]] + Insert(x, t[1..])
  }

  /**
   * The records ordered most recent date first. The built-in
   * sort is stable, and a stable sort has only one possible result
   * (`StableSortIsUnique`), so any stable sort may stand for it: here,
   * insertion of the head into the sorted tail.
   */
  function SortByDate(s: seq<Expense>): (r: seq<Expense>)
    ensures multiset(r) == multiset(s)
  {
    if s == [] then [] else assert s == [s[0]] + s[1..]; Insert(s[0], SortByDate(s[1..]))
  }

  lemma {:induction false} InsertSorted(x: Expense, t: seq<Expense>)
    requires SortedByDate(t)
    ensures SortedByDate(Insert(x, t))
  {
    var r := Insert(x, t);
    if t == [] || NotEarlier(x, t[0]) {
      forall i, j | 0 <= i < j < |r|
        ensures NotEarlier(r[i], r[j])
      {
        if i == 0 && j > 1 {
          NotEarlierTransitive(x, t[0], t[j - 1]);
        }
      }
    } else {
      InsertSorted(x, t[1..]);
      var tail := Insert(x, t[1..]);
      assert r == [t[0]] + tail;
      forall j | 0 <= j < |tail|
        ensures NotEarlier(t[0], tail[j])
      {
        assert tail[j] in multiset(tail);
        if tail[j] == x {
          DateBeforeTotal(x.date, t[0].date);
          if DateBefore(t[0].date, x.date) {
            DateBeforeTransitive(x.date, t[0].date, x.date);
            DateBeforeIrreflexive(x.date);
          }
        } else {
          assert tail[j] in multiset(t[1..]);
          var k :| 0 <= k < |t[1..]| && t[1..][k] == tail[j];
          assert NotEarlier(t[0], t[k + 1]);
        }
      }
    }
  }

  /** The view order is most recent first. */
  lemma {:induction false} SortByDateSorted(s: seq<Expense>)
    ensures SortedByDate(SortByDate(s))
  {
    if s != [] {
      SortByDateSorted(s[1..]);
      InsertSorted(s[0], SortByDate(s[1..]));
    }
  }

  /** The records dated d, in the order they appear. */
  function WithDate(s: seq<Expense>, d: string): seq<Expense> {
    if s == [] then [] else (if s[0].date == d then [s[0]] else []) + WithDate(s[1..], d)
  }

  lemma {:induction false} WithDateInsert(x: Expense, t: seq<Expense>, d: string)
    ensures WithDate(Insert(x, t), d) == (if x.date == d then [x] else []) + WithDate(t, d)
  {
    if t == [] || NotEarlier(x, t[0]) {
      WithDateCons(x, t, d);
    } else {
      var h, rest := t[0], t[1..];
      assert t == [h] + rest;
      WithDateInsert(x, rest, d);
      WithDateCons(h, Insert(x, rest), d);
      WithDateCons(h, rest, d);
      if x.date == d && h.date == d {
        DateBeforeIrreflexive(d);
      }
    }
  }

  /** Stability: records with equal dates keep their list order. */
  lemma {:induction false} SortByDateStable(s: seq<Expense>, d: string)
    ensures WithDate(SortByDate(s), d) == WithDate(s, d)
  {
    if s != [] {
      SortByDateStable(s[1..], d);
      WithDateInsert(s[0], SortByDate(s[1..]), d);
    }
  }

  lemma {:induction false} InWithDate(s: seq<Expense>, d: string, e: Expense)
    ensures e in WithDate(s, d) <==> e in s && e.date == d
  {
    if s != [] {
      InWithDate(s[1..], d, e);
      assert s == [s[0]] + s[1..];
    }
  }

  lemma WithDateOfHead(s: seq<Expense>)
    requires s != []
    ensures WithDate(s, s[0].date) == [s[0]] + WithDate(s[1..], s[0].date)
    ensures forall d :: d != s[0].date ==> WithDate(s, d) == WithDate(s[1..], d)
  {
  }

  /**
   * A most-recent-first order that keeps the list order within each date
   * is unique: any stable sort gives the same view.
   */
  lemma {:induction false} StableSortIsUnique(a: seq<Expense>, b: seq<Expense>)
    requires SortedByDate(a) && SortedByDate(b)
    requires forall d :: WithDate(a, d) == WithDate(b, d)
    ensures a == b
    decreases |a| + |b|
  {
    if a == [] || b == [] {
      if a != [] {
        WithDateOfHead(a);
      } else if b != [] {
        WithDateOfHead(b);
      }
    } else {
      WithDateOfHead(a);
      WithDateOfHead(b);
      var da, db := a[0].date, b[0].date;
      assert a[0] in WithDate(b, da);
      InWithDate(b, da, a[0]);
      assert b[0] in WithDate(a, db);
      InWithDate(a, db, b[0]);
      DateBeforeIrreflexive(da);
      DateBeforeIrreflexive(db);
      var i :| 0 <= i < |b| && b[i] == a[0];
      var j :| 0 <= j < |a| && a[j] == b[0];
      assert NotEarlier(a[0], b[0]) by {
        if j > 0 { assert NotEarlier(a[0], a[j]); }
      }
      assert NotEarlier(b[0], a[0]) by {
        if i > 0 { assert NotEarlier(b[0], b[i]); }
      }
      DateBeforeTotal(da, db);
      assert da == db;
      assert a[0] == b[0] by {
        assert WithDate(a, da)[0] == WithDate(b, db)[0];
      }
      forall d
        ensures WithDate(a[1..], d) == WithDate(b[1..], d)
      {
        if d == da {
          assert WithDate(a, d)[1..] == WithDate(b, d)[1..];
        }
      }
      assert SortedByDate(a[1..]) by {
        forall i, j | 0 <= i < j < |a[1..]| ensures NotEarlier(a[1..][i], a[1..][j]) {
          assert NotEarlier(a[i + 1], a[j + 1]);
        }
      }
      assert SortedByDate(b[1..]) by {
        forall i, j | 0 <= i < j < |b[1..]| ensures NotEarlier(b[1..][i], b[1..][j]) {
          assert NotEarlier(b[i + 1], b[j + 1]);
        }
      }
      StableSortIsUnique(a[1..], b[1..]);
      assert a == [a[0]] + a[1..] && b == [b[0]] + b[1..];
    }
  }

  /** `WithDate` of a list given as its head and its tail. */
  lemma WithDateCons(h: Expense, t: seq<Expense>, d: string)
    ensures WithDate([h] + t, d) == (if h.date == d then [h] else []) + WithDate(t, d)
  {
    assert ([h] + t)[1..] == t;
  }

  /** `FilterByTitle` of a list given as its head and its tail. */
  lemma FilterCons(h: Expense, t: seq<Expense>, filter: string)
    ensures FilterByTitle([h] + t, filter) == (if MatchesFilter(h, filter) then [h] else []) + FilterByTitle(t, filter)
  {
    assert ([h] + t)[1..] == t;
  }

  /** Filtering keeps list order: the matching records of one date come out in their list order. */
  lemma {:induction false} FilterKeepsDateOrder(list: seq<Expense>, filter: string, d: string)
    ensures WithDate(FilterByTitle(list, filter), d) == FilterByTitle(WithDate(list, d), filter)
  {
    if list != [] {
      var h, rest := list[0], list[1..];
      assert list == [h] + rest;
      FilterKeepsDateOrder(rest, filter, d);
      var filtered, dated := FilterByTitle(rest, filter), WithDate(rest, d);
      FilterCons(h, rest, filter);
      WithDateCons(h, rest, d);
      if MatchesFilter(h, filter) {
        WithDateCons(h, filtered, d);
      } else {
        assert [] + filtered == filtered;
      }
      if h.date == d {
        FilterCons(h, dated, filter);
      } else {
        assert [] + dated == dated;
      }
    }
  }

  /** The records shown, in display order. */
  function Visible(list: seq<Expense>, filter: string): (r: seq<Expense>)
    ensures |r| <= |list|
    ensures forall e :: e in r ==> e in list && MatchesFilter(e, filter)
  {
    var f := FilterByTitle(list, filter);
    var r := SortByDate(f);
    assert |multiset(r)| == |r| && |multiset(f)| == |f|;
    assert forall e :: e in r ==> e in multiset(r);
    r
  }

  /**
   * The view holds exactly the matching records, most recent first, with
   * equal dates in list order; nothing else orders it.
   */
  lemma VisibleSpec(list: seq<Expense>, filter: string)
    ensures forall e :: multiset(Visible(list, filter))[e] ==
                        if MatchesFilter(e, filter) then multiset(list)[e] else 0
    ensures SortedByDate(Visible(list, filter))
    ensures forall d :: WithDate(Visible(list, filter), d) == FilterByTitle(WithDate(list, d), filter)
  {
    FilterByTitleExact(list, filter);
    SortByDateSorted(FilterByTitle(list, filter));
    forall d ensures WithDate(Visible(list, filter), d) == FilterByTitle(WithDate(list, d), filter) {
      SortByDateStable(FilterByTitle(list, filter), d);
      FilterKeepsDateOrder(list, filter, d);
    }
  }

  /** The search is case-blind: upper- and lower-case forms of the search text give the same view. */
  lemma VisibleIgnoresCase(list: seq<Expense>, f: string, g: string)
    requires SameIgnoringCase(f, g)
    ensures Visible(list, f) == Visible(list, g)
  {
    LowerAlikeIff(f, g);
    assert forall e :: MatchesFilter(e, f) == MatchesFilter(e, g);
    FilterSameTest(list, f, g);
  }

  lemma {:induction false} FilterSameTest(list: seq<Expense>, f: string, g: string)
    requires forall e :: MatchesFilter(e, f) == MatchesFilter(e, g)
    ensures FilterByTitle(list, f) == FilterByTitle(list, g)
  {
    if list != [] { FilterSameTest(list[1..], f, g); }
  }

  /** The badge lookup table of `renderExpenses`. */
  const CategoryClasses: map<string, string> := map[
    "Food" := "category-food",
    "Travel" := "category-travel",
    "Shopping" := "category-shopping",
    "Bills" := "category-bills",
    "General" := "category-general"]

  /** The class of a category in the table, and `category-general` for any category it lacks. */
  function BadgeClass(category: string): (r: string)
    ensures r in CategoryClasses.Values
    ensures category == "Food" ==> r == "category-food"
    ensures category == "Travel" ==> r == "category-travel"
    ensures category == "Shopping" ==> r == "category-shopping"
    ensures category == "Bills" ==> r == "category-bills"
    ensures r == "category-general" <==> category !in CategoryClasses || category == "General"
  {
    assert CategoryClasses["General"] == "category-general";
    if category in CategoryClasses then CategoryClasses[category] else "category-general"
  }

  /** One table row: the cell texts, the badge class and the id its buttons act on. */
  datatype Row = Row(title: string, amountText: string, date: string, category: string, badge: string, id: string)

  function RowOf(e: Expense, currency: string): Row {
    Row(e.title, currency + " " + IntText(e.amount), e.date, e.category, BadgeClass(e.category), e.id)
  }

  function RowsOf(s: seq<Expense>, currency: string): (r: seq<Row>)
    ensures |r| == |s|
    ensures forall k :: 0 <= k < |s| ==> r[k] == RowOf(s[k], currency)
  {
    if s == [] then [] else [RowOf(s[0], currency)] + RowsOf(s[1..], currency)
  }

  /** The rows `renderExpenses` builds, one per visible record in display order. */
  function Render(list: seq<Expense>, filter: string, currency: string): (r: seq<Row>)
    ensures |r| == |Visible(list, filter)|
    ensures forall k :: 0 <= k < |r| ==>
              exists e :: e in list && MatchesFilter(e, filter) && r[k] == RowOf(e, currency)
  {
    var v := Visible(list, filter);
    assert forall k :: 0 <= k < |v| ==> v[k] in v;
    RowsOf(v, currency)
  }

  /**
   * Each row shows its record verbatim: the stored category even when the
   * badge falls back to `category-general`.
   */
  lemma RenderShowsRecords(list: seq<Expense>, filter: string, currency: string, k: int)
    requires 0 <= k < |Visible(list, filter)|
    ensures |Render(list, filter, currency)| == |Visible(list, filter)|
    ensures var e, row := Visible(list, filter)[k], Render(list, filter, currency)[k];
            e in list && MatchesFilter(e, filter)
            && row.title == e.title && row.date == e.date && row.id == e.id
            && row.category == e.category && row.badge == BadgeClass(e.category)
            && row.amountText == currency + " " + IntText(e.amount)
  {
    var v := Visible(list, filter);
    VisibleSpec(list, filter);
    assert v[k] in multiset(v);
  }
}
