/** The saved-invoice list's query: a newest-first copy of the collection,
    narrowed to the records whose vendor or invoice number contains the search
    term, compared without regard to ASCII case. */
module InvoiceQuery {
  import opened Types

  // ---------------------------------------------------------------------
  // Case-insensitive substring test
  // ---------------------------------------------------------------------

  /** ASCII lower-casing of one character. */
  function LowerChar(c: char): (r: char)
    ensures 'A' <= c <= 'Z' ==> r as int == c as int + 32
    ensures !('A' <= c <= 'Z') ==> r == c
    ensures !('A' <= r <= 'Z')
  {
    if 'A' <= c <= 'Z' then (c as int + 32) as char else c
  }

  /** ASCII lower-casing of a string (`toLowerCase`). */
  function Lower(s: string): (r: string)
    ensures |r| == |s|
    ensures forall i :: 0 <= i < |s| ==> r[i] == LowerChar(s[i])
  {
    if s == [] then [] else [LowerChar(s[0])] + Lower(s[1..])
  }

  /** Lower-casing twice is lower-casing once. */
  lemma LowerIdempotent(s: string)
    ensures Lower(Lower(s)) == Lower(s)
  {
  }

  /** `needle` occurs at position `i` of `hay`. */
  ghost predicate OccursAt(hay: string, needle: string, i: int) {
    0 <= i && i + |needle| <= |hay| && hay[i..i + |needle|] == needle
  }

  /** Substring search (`includes`): scan the positions from the left. */
  function Includes(hay: string, needle: string): (b: bool)
    ensures b <==> exists i :: OccursAt(hay, needle, i)
  {
    if |needle| <= |hay| && hay[..|needle|] == needle then
      assert OccursAt(hay, needle, 0);
      true
    else if hay == [] then
      assert forall i :: !OccursAt(hay, needle, i);
      false
    else
      var b := Includes(hay[1..], needle);
      IncludesShift(hay, needle);
      b
  }

  lemma IncludesShift(hay: string, needle: string)
    requires hay != [] && !(|needle| <= |hay| && hay[..|needle|] == needle)
    ensures (exists i :: OccursAt(hay, needle, i)) <==> (exists i :: OccursAt(hay[1..], needle, i))
  {
    if exists i :: OccursAt(hay, needle, i) {
      var i :| OccursAt(hay, needle, i);
      assert i != 0;
      assert hay[1..][i - 1..i - 1 + |needle|] == hay[i..i + |needle|];
      assert OccursAt(hay[1..], needle, i - 1);
    }
    if exists i :: OccursAt(hay[1..], needle, i) {
      var i :| OccursAt(hay[1..], needle, i);
      assert hay[1..][i..i + |needle|] == hay[i + 1..i + 1 + |needle|];
      assert OccursAt(hay, needle, i + 1);
    }
  }

  /** The search predicate of the list: the lower-cased term occurs in the
      lower-cased vendor or in the lower-cased invoice number. */
  predicate Matches(inv: Invoice, term: string) {
    Includes(Lower(inv.vendor), Lower(term)) || Includes(Lower(inv.invoiceNumber), Lower(term))
  }

  /** Every invoice matches the empty term. */
  lemma EmptyTermMatchesAll(inv: Invoice)
    ensures Matches(inv, "")
  {
    assert OccursAt(Lower(inv.vendor), Lower(""), 0);
  }

  /** The term is found in the vendor or number whatever the case of either. */
  lemma MatchesIgnoresCase(inv: Invoice, term: string)
    ensures Matches(inv, term) == Matches(inv.(vendor := Lower(inv.vendor), invoiceNumber := Lower(inv.invoiceNumber)), Lower(term))
  {
    LowerIdempotent(inv.vendor);
    LowerIdempotent(inv.invoiceNumber);
    LowerIdempotent(term);
  }

  // ---------------------------------------------------------------------
  // Newest-first ordering
  // ---------------------------------------------------------------------

  /** Creation times do not increase along the sequence. */
  ghost predicate NewestFirst(s: seq<Invoice>) {
    forall i, j :: 0 <= i < j < |s| ==> s[i].createdAt >= s[j].createdAt
  }

  /** Insert `x` into a newest-first sequence, ahead of every record created
      at the same time or earlier. */
  function Insert(x: Invoice, s: seq<Invoice>): (r: seq<Invoice>)
    requires NewestFirst(s)
    ensures NewestFirst(r)
    ensures multiset(r) == multiset(s) + multiset{x}
  {
    if s == [] || x.createdAt >= s[0].createdAt then
      [x] + s
    else
      var t := Insert(x, s[1..]);
      InsertBehindHead(x, s, t);
      [s[0]] + t
  }

  lemma InsertBehindHead(x: Invoice, s: seq<Invoice>, t: seq<Invoice>)
    requires NewestFirst(s) && s != [] && x.createdAt < s[0].createdAt
    requires NewestFirst(t) && multiset(t) == multiset(s[1..]) + multiset{x}
    ensures NewestFirst([s[0]] + t)
    ensures multiset([s[0]] + t) == multiset(s) + multiset{x}
  {
    assert s == [s[0]] + s[1..];
    forall j | 0 <= j < |t| ensures s[0].createdAt >= t[j].createdAt {
      assert t[j] in multiset(t);
      if t[j] != x {
        assert t[j] in s[1..];
      }
    }
    var r := [s[0]] + t;
    forall i, j | 0 <= i < j < |r| ensures r[i].createdAt >= r[j].createdAt {
      if i > 0 {
        assert r[i] == t[i - 1] && r[j] == t[j - 1];
      } else {
        assert r[j] == t[j - 1];
      }
    }
  }

  /** The comparator sort `(a, b) => b.createdAt - a.createdAt`: newest first,
      ties in their original order. */
  function SortNewestFirst(s: seq<Invoice>): (r: seq<Invoice>)
    ensures NewestFirst(r)
    ensures multiset(r) == multiset(s)
  {
    if s == [] then []
    else
      assert s == [s[0]] + s[1..];
      Insert(s[0], SortNewestFirst(s[1..]))
  }

  /** The records created at instant `t`, in their order. */
  function CreatedAt(s: seq<Invoice>, t: Timestamp): seq<Invoice> {
    if s == [] then []
    else (if s[0].createdAt == t then [s[0]] else []) + CreatedAt(s[1..], t)
  }

  lemma {:induction false} InsertKeepsTies(x: Invoice, s: seq<Invoice>, t: Timestamp)
    requires NewestFirst(s)
    ensures CreatedAt(Insert(x, s), t) == (if x.createdAt == t then [x] else []) + CreatedAt(s, t)
  {
    if s == [] || x.createdAt >= s[0].createdAt {
      assert Insert(x, s) == [x] + s;
      assert ([x] + s)[1..] == s;
    } else {
      assert NewestFirst(s[1..]) by {
        forall i, j | 0 <= i < j < |s[1..]| ensures s[1..][i].createdAt >= s[1..][j].createdAt {
          assert s[1..][i] == s[i + 1] && s[1..][j] == s[j + 1];
        }
      }
      var u := Insert(x, s[1..]);
      assert Insert(x, s) == [s[0]] + u;
      assert ([s[0]] + u)[1..] == u;
      InsertKeepsTies(x, s[1..], t);
    }
  }

  /** The sort is stable: records created at the same instant keep their
      relative order. */
  lemma {:induction false} SortKeepsTies(s: seq<Invoice>, t: Timestamp)
    ensures CreatedAt(SortNewestFirst(s), t) == CreatedAt(s, t)
  {
    if s != [] {
      SortKeepsTies(s[1..], t);
      InsertKeepsTies(s[0], SortNewestFirst(s[1..]), t);
    }
  }

  // ---------------------------------------------------------------------
  // Filtering and the whole query
  // ---------------------------------------------------------------------

  /** The records that match the term, in their order (`filter`). */
  function KeepMatching(s: seq<Invoice>, term: string): (r: seq<Invoice>)
    ensures forall x :: multiset(r)[x] == if Matches(x, term) then multiset(s)[x] else 0
    ensures NewestFirst(s) ==> NewestFirst(r)
    ensures SubsequenceOf(r, s)
  {
    if s == [] then []
    else
      var t := KeepMatching(s[1..], term);
      assert ([s[0]] + t)[1..] == t;
      assert forall x | x in t :: x in s[1..] by {
        forall x | x in t ensures x in s[1..] {
          assert multiset(t)[x] > 0;
        }
      }
      KeepMatchingCounts(s, term, t);
      KeepMatchingOrder(s, Matches(s[0], term), t);
      if Matches(s[0], term) then [s[0]] + t else t
  }

  lemma KeepMatchingCounts(s: seq<Invoice>, term: string, t: seq<Invoice>)
    requires s != []
    requires forall x :: multiset(t)[x] == if Matches(x, term) then multiset(s[1..])[x] else 0
    ensures var r := if Matches(s[0], term) then [s[0]] + t else t;
      forall x :: multiset(r)[x] == if Matches(x, term) then multiset(s)[x] else 0
  {
    assert s == [s[0]] + s[1..];
    var r := if Matches(s[0], term) then [s[0]] + t else t;
    forall x ensures multiset(r)[x] == if Matches(x, term) then multiset(s)[x] else 0 {
      assert multiset(s)[x] == multiset([s[0]])[x] + multiset(s[1..])[x];
    }
  }

  lemma KeepMatchingOrder(s: seq<Invoice>, keepHead: bool, t: seq<Invoice>)
    requires s != []
    requires forall x | x in t :: x in s[1..]
    requires NewestFirst(s[1..]) ==> NewestFirst(t)
    ensures NewestFirst(s) ==> NewestFirst(if keepHead then [s[0]] + t else t)
  {
    var r := if keepHead then [s[0]] + t else t;
    if NewestFirst(s) {
      assert NewestFirst(s[1..]) by {
        forall i, j | 0 <= i < j < |s[1..]| ensures s[1..][i].createdAt >= s[1..][j].createdAt {
          assert s[1..][i] == s[i + 1] && s[1..][j] == s[j + 1];
        }
      }
      if keepHead {
        forall j | 0 <= j < |t| ensures s[0].createdAt >= t[j].createdAt {
          assert t[j] in s[1..];
        }
        forall i, j | 0 <= i < j < |r| ensures r[i].createdAt >= r[j].createdAt {
          if i > 0 {
            assert r[i] == t[i - 1] && r[j] == t[j - 1];
          } else {
            assert r[j] == t[j - 1];
          }
        }
      }
    }
  }

  /** Narrowing by the term and picking one creation instant commute. */
  lemma {:induction false} KeepMatchingCreatedAt(s: seq<Invoice>, term: string, t: Timestamp)
    ensures CreatedAt(KeepMatching(s, term), t) == KeepMatching(CreatedAt(s, t), term)
  {
    if s != [] {
      KeepMatchingCreatedAt(s[1..], term, t);
      var rest := KeepMatching(s[1..], term);
      var c := CreatedAt(s[1..], t);
      if Matches(s[0], term) {
        assert KeepMatching(s, term) == [s[0]] + rest;
        assert ([s[0]] + rest)[1..] == rest;
        if s[0].createdAt == t {
          assert CreatedAt(s, t) == [s[0]] + c;
          assert ([s[0]] + c)[1..] == c;
        } else {
          assert CreatedAt(s, t) == c;
        }
      } else {
        assert KeepMatching(s, term) == rest;
        if s[0].createdAt == t {
          assert CreatedAt(s, t) == [s[0]] + c;
          assert ([s[0]] + c)[1..] == c;
        } else {
          assert CreatedAt(s, t) == c;
        }
      }
    }
  }

  /** Narrowing by the empty term keeps the sequence as it is. */
  lemma {:induction false} KeepMatchingEmptyTerm(s: seq<Invoice>)
    ensures KeepMatching(s, "") == s
  {
    if s != [] {
      EmptyTermMatchesAll(s[0]);
      KeepMatchingEmptyTerm(s[1..]);
    }
  }

  /** `filteredInvoices`: no collection gives nothing; otherwise a sorted copy,
      narrowed by the term unless the term is empty. */
  function FilteredInvoices(invoices: Option<seq<Invoice>>, term: string): (r: seq<Invoice>)
    ensures invoices.None? ==> r == []
    ensures NewestFirst(r)
    ensures forall x :: multiset(r)[x] ==
                        if invoices.Some? && Matches(x, term) then multiset(invoices.value)[x] else 0
    ensures invoices.Some? && term == "" ==> multiset(r) == multiset(invoices.value)
  {
    match invoices
    case None => []
    case Some(all) =>
      var sorted := SortNewestFirst(all);
      if term == "" then
        assert forall x :: Matches(x, term) by {
          forall x ensures Matches(x, term) { EmptyTermMatchesAll(x); }
        }
        sorted
      else
        KeepMatching(sorted, term)
  }

  /** Every listed record matches, every matching record is listed, and the
      list is no longer than the collection. */
  lemma ListedExactlyTheMatches(all: seq<Invoice>, term: string)
    ensures forall x :: x in FilteredInvoices(Some(all), term) <==> x in all && Matches(x, term)
    ensures |FilteredInvoices(Some(all), term)| <= |all|
  {
    var r := FilteredInvoices(Some(all), term);
    forall x ensures x in r <==> x in all && Matches(x, term) {
      assert x in r <==> multiset(r)[x] > 0;
      assert x in all <==> multiset(all)[x] > 0;
    }
    assert multiset(r) <= multiset(all);
    assert |multiset(r)| <= |multiset(all)| by {
      MultisetSubsetCard(multiset(r), multiset(all));
    }
  }

  /** Records created at the same instant are listed in their stored order:
      among them, the list holds exactly the matching ones, in that order. */
  lemma ListedTiesKeepStoredOrder(all: seq<Invoice>, term: string, t: Timestamp)
    ensures CreatedAt(FilteredInvoices(Some(all), term), t) == KeepMatching(CreatedAt(all, t), term)
  {
    SortKeepsTies(all, t);
    if term == "" {
      KeepMatchingEmptyTerm(CreatedAt(all, t));
    } else {
      KeepMatchingCreatedAt(SortNewestFirst(all), term, t);
    }
  }

  lemma MultisetSubsetCard(a: multiset<Invoice>, b: multiset<Invoice>)
    requires a <= b
    ensures |a| <= |b|
  {
    assert b == a + (b - a);
  }
}
