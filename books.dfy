/** The book record and the specification functions over an ordered list
    of records: the search filter, the read count, the genre tally, and
    removal by position, with the lemmas that say what each one means. */
module Books {
  import opened Text

  /** One entry of the library list (app.py:45-51). */
  datatype Book = Book(title: string, author: string, year: int, genre: string, read: bool)

  /** The "Search by" choice: the field the search term is matched against. */
  datatype Field = ByTitle | ByAuthor

  /** The text the term is matched against: the title for the Title
      choice, the author for the Author choice. */
  function FieldText(b: Book, f: Field): string
  {
    match f
    case ByTitle => b.title
    case ByAuthor => b.author
  }

  // ---------------------------------------------------------------------
  // Order-preserving subsequences

  /** `a` is obtained from `b` by deleting elements, keeping the order of the rest. */
  predicate Subsequence<T(==)>(a: seq<T>, b: seq<T>)
    decreases |b|
  {
    a == [] ||
    (b != [] &&
     ((a[|a| - 1] == b[|b| - 1] && Subsequence(a[..|a| - 1], b[..|b| - 1])) ||
      Subsequence(a, b[..|b| - 1])))
  }

  /** Every sequence is a subsequence of itself. */
  lemma {:induction false} SubsequenceRefl<T>(s: seq<T>)
    ensures Subsequence(s, s)
    decreases |s|
  {
    if s != [] {
      SubsequenceRefl(s[..|s| - 1]);
    }
  }

  // ---------------------------------------------------------------------
  // Search (app.py:93-100)

  /** The match test of one book, for a term that has already been lowered:
      the lowered field contains the term. */
  predicate Matches(b: Book, f: Field, term: string): (m: bool)
    ensures term == [] ==> m
    ensures m ==> |term| <= |FieldText(b, f)|
  {
    var s := LowerStr(FieldText(b, f));
    ContainsEmpty(s);
    if Contains(s, term) then ContainsNoLonger(s, term); true else false
  }

  /** The books of `lib` that match, in library order; built from the end so
      that it follows the loop that appends matches one by one. */
  function Filter(lib: seq<Book>, f: Field, term: string): (r: seq<Book>)
    ensures |r| <= |lib|
    decreases |lib|
  {
    if lib == [] then []
    else
      var b := lib[|lib| - 1];
      Filter(lib[..|lib| - 1], f, term) + (if Matches(b, f, term) then [b] else [])
  }

  /** The search result keeps library order: it is a subsequence of the library. */
  lemma {:induction false} FilterSubsequence(lib: seq<Book>, f: Field, term: string)
    ensures Subsequence(Filter(lib, f, term), lib)
    decreases |lib|
  {
    if lib != [] {
      var init, b := lib[..|lib| - 1], lib[|lib| - 1];
      FilterSubsequence(init, f, term);
      var r := Filter(lib, f, term);
      if Matches(b, f, term) {
        assert r[..|r| - 1] == Filter(init, f, term);
      } else {
        assert r == Filter(init, f, term);
      }
    }
  }

  /** The search result holds every matching book exactly as many times as
      the library does, and no other book. */
  lemma {:induction false} FilterMultiset(lib: seq<Book>, f: Field, term: string, x: Book)
    ensures multiset(Filter(lib, f, term))[x] == if Matches(x, f, term) then multiset(lib)[x] else 0
    decreases |lib|
  {
    if lib != [] {
      var init, b := lib[..|lib| - 1], lib[|lib| - 1];
      FilterMultiset(init, f, term, x);
      var r0 := Filter(init, f, term);
      var mb := Matches(b, f, term);
      assert lib == init + [b];
      assert multiset(lib) == multiset(init) + multiset{b};
      assert Filter(lib, f, term) == r0 + (if mb then [b] else []);
      assert multiset(Filter(lib, f, term)) == multiset(r0) + (if mb then multiset{b} else multiset{});
    }
  }

  /** A book is in the search result exactly when it is in the library and matches. */
  lemma FilterMembership(lib: seq<Book>, f: Field, term: string, x: Book)
    ensures x in Filter(lib, f, term) <==> x in lib && Matches(x, f, term)
  {
    FilterMultiset(lib, f, term, x);
  }

  /** Two terms that differ only in letter case select the same books. */
  lemma FilterCaseInsensitive(lib: seq<Book>, f: Field, a: string, b: string)
    requires CaseVariant(a, b)
    ensures Filter(lib, f, LowerStr(a)) == Filter(lib, f, LowerStr(b))
  {
    CaseVariantIff(a, b);
  }

  // ---------------------------------------------------------------------
  // Read count (app.py:145)

  /** `sum(1 for book in lib if book["read"])`. */
  function ReadCount(lib: seq<Book>): (r: nat)
    ensures r <= |lib|
    decreases |lib|
  {
    if lib == [] then 0 else (if lib[0].read then 1 else 0) + ReadCount(lib[1..])
  }

  /** The read count of a concatenation is the sum of the read counts. */
  lemma {:induction false} ReadCountAppend(a: seq<Book>, b: seq<Book>)
    ensures ReadCount(a + b) == ReadCount(a) + ReadCount(b)
    decreases |a|
  {
    if a != [] {
      ReadCountAppend(a[1..], b);
      assert (a + b)[0] == a[0];
      assert (a + b)[1..] == a[1..] + b;
    } else {
      assert a + b == b;
    }
  }

  /** Every book is read exactly when the count reaches the total, and none
      is read exactly when the count is zero. */
  lemma {:induction false} ReadCountExtremes(lib: seq<Book>)
    ensures ReadCount(lib) == |lib| <==> forall k :: 0 <= k < |lib| ==> lib[k].read
    ensures ReadCount(lib) == 0 <==> forall k :: 0 <= k < |lib| ==> !lib[k].read
    decreases |lib|
  {
    if lib != [] {
      ReadCountExtremes(lib[1..]);
      assert forall k :: 1 <= k < |lib| ==> lib[k] == lib[1..][k - 1];
    }
  }

  // ---------------------------------------------------------------------
  // Genre distribution (app.py:162-168)

  /** One step of the tally loop: bump the genre's count, or start it at 1. */
  function Bump(m: map<string, nat>, g: string): (m': map<string, nat>)
    ensures m'.Keys == m.Keys + {g}
    ensures m'[g] == (if g in m then m[g] else 0) + 1
    ensures forall h :: h in m && h != g ==> m'[h] == m[h]
  {
    if g in m then m[g := m[g] + 1] else m[g := 1]
  }

  /** The dictionary the tally loop builds over `lib`, in loop order. */
  function Tally(lib: seq<Book>): (t: map<string, nat>)
    ensures forall g :: g in t ==> t[g] >= 1
    decreases |lib|
  {
    if lib == [] then map[] else Bump(Tally(lib[..|lib| - 1]), lib[|lib| - 1].genre)
  }

  /** The number of books whose genre is exactly `g` (the empty genre included). */
  function CountGenre(lib: seq<Book>, g: string): (n: nat)
    ensures n <= |lib|
    decreases |lib|
  {
    if lib == [] then 0 else (if lib[0].genre == g then 1 else 0) + CountGenre(lib[1..], g)
  }

  /** The genres that occur in `lib`. */
  function Genres(lib: seq<Book>): set<string>
  {
    set b | b in lib :: b.genre
  }

  /** Counting one more book at the end. */
  lemma {:induction false} CountGenreSnoc(lib: seq<Book>, b: Book, g: string)
    ensures CountGenre(lib + [b], g) == CountGenre(lib, g) + (if b.genre == g then 1 else 0)
    decreases |lib|
  {
    if lib != [] {
      CountGenreSnoc(lib[1..], b, g);
      assert (lib + [b])[1..] == lib[1..] + [b];
    }
  }

  /** A genre has a positive count exactly when some book has it. */
  lemma {:induction false} CountGenrePositive(lib: seq<Book>, g: string)
    ensures CountGenre(lib, g) > 0 <==> g in Genres(lib)
    decreases |lib|
  {
    if lib != [] {
      CountGenrePositive(lib[1..], g);
      assert lib == [lib[0]] + lib[1..];
      assert Genres(lib) == {lib[0].genre} + Genres(lib[1..]);
    }
  }

  /** The keys of the tally are exactly the genres that occur. */
  lemma {:induction false} TallyKeys(lib: seq<Book>)
    ensures Tally(lib).Keys == Genres(lib)
    decreases |lib|
  {
    if lib != [] {
      var init, b := lib[..|lib| - 1], lib[|lib| - 1];
      TallyKeys(init);
      assert lib == init + [b];
      assert Genres(lib) == Genres(init) + {b.genre};
    }
  }

  /** Each count of the tally is the number of books with that genre. */
  lemma {:induction false} TallyCounts(lib: seq<Book>)
    ensures forall g :: g in Tally(lib) ==> Tally(lib)[g] == CountGenre(lib, g)
    decreases |lib|
  {
    if lib != [] {
      var init, b := lib[..|lib| - 1], lib[|lib| - 1];
      TallyCounts(init);
      TallyKeys(init);
      assert lib == init + [b];
      forall g | g in Tally(lib) ensures Tally(lib)[g] == CountGenre(lib, g) {
        CountGenreSnoc(init, b, g);
        if g !in Tally(init) {
          CountGenrePositive(init, g);
        }
      }
    }
  }

  /** The sum of the counts of a dictionary. */
  ghost function MapSum(m: map<string, nat>): nat
    decreases |m|
  {
    if m == map[] then 0
    else
      var k :| k in m;
      m[k] + MapSum(m - {k})
  }

  /** The sum does not depend on which key is taken out first. */
  lemma {:induction false} MapSumRemove(m: map<string, nat>, k: string)
    requires k in m
    ensures MapSum(m) == m[k] + MapSum(m - {k})
    decreases |m|
  {
    var j :| j in m && MapSum(m) == m[j] + MapSum(m - {j});
    if j != k {
      MapSumRemove(m - {j}, k);
      MapSumRemove(m - {k}, j);
      assert m - {j} - {k} == m - {k} - {j};
    }
  }

  /** Bumping a genre adds one to the sum. */
  lemma BumpSum(m: map<string, nat>, g: string)
    ensures MapSum(Bump(m, g)) == MapSum(m) + 1
  {
    var m' := Bump(m, g);
    MapSumRemove(m', g);
    if g in m {
      MapSumRemove(m, g);
      assert m' - {g} == m - {g};
    } else {
      assert m' - {g} == m;
    }
  }

  /** The genre counts sum to the number of books. */
  lemma {:induction false} TallySum(lib: seq<Book>)
    ensures MapSum(Tally(lib)) == |lib|
    decreases |lib|
  {
    if lib != [] {
      TallySum(lib[..|lib| - 1]);
      BumpSum(Tally(lib[..|lib| - 1]), lib[|lib| - 1].genre);
    }
  }

  /** The facts about the tally that the genre-count loop needs, together. */
  lemma TallyFacts(lib: seq<Book>)
    ensures Tally(lib).Keys == Genres(lib)
    ensures forall g :: g in Tally(lib) ==> Tally(lib)[g] == CountGenre(lib, g)
    ensures MapSum(Tally(lib)) == |lib|
  {
    TallyKeys(lib);
    TallyCounts(lib);
    TallySum(lib);
  }

  // ---------------------------------------------------------------------
  // Removal by position (app.py:78)

  /** `lib` after `lib.pop(i)`: the element at `i` is gone and the others
      keep their order. */
  function Without(lib: seq<Book>, i: nat): (r: seq<Book>)
    requires i < |lib|
    ensures |r| == |lib| - 1
    ensures forall j :: 0 <= j < i ==> r[j] == lib[j]
    ensures forall j :: i <= j < |r| ==> r[j] == lib[j + 1]
  {
    lib[..i] + lib[i + 1..]
  }

  /** Removal takes away exactly one copy of the removed book. */
  lemma WithoutMultiset(lib: seq<Book>, i: nat)
    requires i < |lib|
    ensures multiset(Without(lib, i)) + multiset{lib[i]} == multiset(lib)
  {
    assert lib == lib[..i] + [lib[i]] + lib[i + 1..];
  }

  /** Removal keeps the relative order of the remaining books. */
  lemma {:induction false} WithoutSubsequence(lib: seq<Book>, i: nat)
    requires i < |lib|
    ensures Subsequence(Without(lib, i), lib)
    decreases |lib|
  {
    var r := Without(lib, i);
    if i == |lib| - 1 {
      assert r == lib[..|lib| - 1];
      SubsequenceRefl(r);
    } else {
      var init := lib[..|lib| - 1];
      WithoutSubsequence(init, i);
      assert r[..|r| - 1] == Without(init, i);
    }
  }

  /** Removing a book lowers the read count by one exactly when that book was read. */
  lemma ReadCountWithout(lib: seq<Book>, i: nat)
    requires i < |lib|
    ensures ReadCount(Without(lib, i)) == ReadCount(lib) - (if lib[i].read then 1 else 0)
  {
    var pre, rest, post := lib[..i], lib[i..], lib[i + 1..];
    assert lib == pre + rest;
    ReadCountAppend(pre, rest);
    assert rest[0] == lib[i] && rest[1..] == post;
    ReadCountAppend(pre, post);
    assert Without(lib, i) == pre + post;
  }
}
