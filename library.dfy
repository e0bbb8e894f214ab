/** The library page logic: the record store that the add and remove
    pages change in place (with the library file it is saved to), and the
    search and statistics pages that scan it. */
module LibraryManager {
  import opened Text
  import opened Books

  /** The library file as the startup load finds it: absent, one that cannot
      be opened or parsed as JSON, or one holding a list of books. */
  datatype StoredFile = Missing | Unreadable | Stored(books: seq<Book>)

  /** What one run of the add form does. */
  datatype AddOutcome =
    | NotSubmitted   // the form was not submitted
    | Added          // the book was appended and the library saved
    | MissingField   // "Title and author are required!"

  /** What one run of the remove page does. */
  datatype RemoveOutcome =
    | LibraryEmpty        // "Your library is empty."
    | NotPressed          // the remove button was not pressed
    | Removed(book: Book) // the book taken out, reported by title
    | IndexError          // `pop` raised: the index is past the end

  /** The store of book records, and the file it is saved to. */
  class Library {
    /** The ordered list of books of the session. */
    var books: seq<Book>
    /** The library file: what the last save wrote, or what startup found. */
    var file: StoredFile

    /** Startup: the library is what the file holds, or empty when the file
        is missing or cannot be opened or parsed. */
    constructor (found: StoredFile)
      ensures file == found
      ensures books == if found.Stored? then found.books else []
    {
      file := found;
      books := if found.Stored? then found.books else [];
    }

    /** `save_library`: the whole list overwrites the file. */
    method Save()
      modifies this
      ensures books == old(books)
      ensures file == Stored(books)
    {
      file := Stored(books);
    }

    /** `add_book`: when the form is submitted with a non-empty title and
        author, one book is appended and the library saved; otherwise
        nothing changes. */
    method Add(submitted: bool, title: string, author: string, year: int, genre: string, status: string)
      returns (outcome: AddOutcome)
      modifies this
      ensures outcome == if !submitted then NotSubmitted
                         else if title != [] && author != [] then Added
                         else MissingField
      ensures outcome == Added ==>
                books == old(books) + [Book(title, author, year, genre, status == "Yes")] &&
                file == Stored(books)
      ensures outcome != Added ==> books == old(books) && file == old(file)
    {
      if submitted && title != [] && author != [] {
        var book := Book(title, author, year, genre, status == "Yes");
        books := books + [book];
        Save();
        outcome := Added;
      } else if submitted {
        outcome := MissingField;
      } else {
        outcome := NotSubmitted;
      }
    }

    /** `remove_book`: on an empty library nothing happens; otherwise, when
        the button is pressed, the book at the selected position is popped,
        the library saved, and the popped book reported. */
    method Remove(pressed: bool, i: nat) returns (outcome: RemoveOutcome)
      modifies this
      ensures old(books) == [] ==> outcome == LibraryEmpty
      ensures old(books) != [] && !pressed ==> outcome == NotPressed
      ensures old(books) != [] && pressed && i >= |old(books)| ==> outcome == IndexError
      ensures old(books) != [] && pressed && i < |old(books)| ==>
                outcome == Removed(old(books)[i]) &&
                books == Without(old(books), i) &&
                file == Stored(books)
      ensures !outcome.Removed? ==> books == old(books) && file == old(file)
    {
      if books == [] {
        return LibraryEmpty;
      }
      if !pressed {
        return NotPressed;
      }
      if i >= |books| {
        return IndexError;
      }
      var removed := books[i];
      books := books[..i] + books[i + 1..];
      Save();
      outcome := Removed(removed);
    }
  }

  // -----------------------------------------------------------------------
  // Search page (app.py:86-106)

  /** What one run of the search page shows. */
  datatype SearchOutcome =
    | EmptyLibrary           // "Your library is empty."
    | NoTerm                 // no search term entered: no search
    | Found(books: seq<Book>) // the matching books (possibly none)

  /** `search_book`: with a non-empty term, the books whose chosen field,
      lowered, contains the lowered term, in library order. */
  method Search(lib: seq<Book>, field: Field, term: string) returns (outcome: SearchOutcome)
    ensures lib == [] ==> outcome == EmptyLibrary
    ensures lib != [] && term == [] ==> outcome == NoTerm
    ensures lib != [] && term != [] ==> outcome == Found(Filter(lib, field, LowerStr(term)))
  {
    if lib == [] {
      return EmptyLibrary;
    }
    if term == [] {
      return NoTerm;
    }
    var matching: seq<Book> := [];
    var t := LowerStr(term);
    for k := 0 to |lib|
      invariant matching == Filter(lib[..k], field, t)
    {
      var book := lib[k];
      assert lib[..k + 1][..k] == lib[..k];
      if Contains(LowerStr(FieldText(book, field)), t) {
        matching := matching + [book];
      }
    }
    assert lib[..|lib|] == lib;
    outcome := Found(matching);
  }

  /** A worked example, part 1: "tolkien" occurs in the lowered author
      "J.R.R. Tolkien". */
  lemma TolkienMatches(b: Book, term: string)
    requires b.author == "J.R.R. Tolkien" && term == "tolkien"
    ensures Matches(b, ByAuthor, term)
  {
    var la := LowerStr(b.author);
    assert la[7..14] == term;
    assert OccursAt(term, la, 7);
    ContainsIff(la, term);
  }

  /** Part 2: "tolkien" does not occur in the lowered author "Frank Herbert". */
  lemma HerbertDoesNotMatch(b: Book, term: string)
    requires b.author == "Frank Herbert" && term == "tolkien"
    ensures !Matches(b, ByAuthor, term)
  {
    var lb := LowerStr(b.author);
    ContainsIff(lb, term);
    assert |lb| == 13;
    assert forall j :: 0 <= j < 7 ==> lb[j] != 't';
    forall k ensures !OccursAt(term, lb, k) {
      if 0 <= k && k + 7 <= 13 {
        assert lb[k..k + 7][0] == lb[k];
      }
    }
  }

  /** Part 3: over a library of The Hobbit (by J.R.R. Tolkien) and Dune (by
      Frank Herbert), an author search for "tolkien" or "TOLKIEN" finds The
      Hobbit alone; by the ensures of `Search`, the page shows `Found([lib[0]])`. */
  lemma SearchTolkien(lib: seq<Book>, term: string)
    requires |lib| == 2 && lib[0].author == "J.R.R. Tolkien" && lib[1].author == "Frank Herbert"
    requires term == "TOLKIEN" || term == "tolkien"
    ensures Filter(lib, ByAuthor, LowerStr(term)) == [lib[0]]
  {
    assert LowerStr(term) == "tolkien";
    var t := LowerStr(term);
    TolkienMatches(lib[0], t);
    HerbertDoesNotMatch(lib[1], t);
    assert lib[..1][..0] == [];
    assert lib[..1] == [lib[0]];
  }

  // -----------------------------------------------------------------------
  // Statistics page (app.py:140-168)

  /** `percentage_read`, as an exact rational: zero for an empty library,
      otherwise the share of read books out of 100. */
  function PercentRead(readBooks: nat, total: nat): (p: real)
    ensures total == 0 ==> p == 0.0
    ensures total > 0 ==> p * total as real == readBooks as real * 100.0
    ensures readBooks <= total ==> 0.0 <= p <= 100.0
  {
    if total > 0 then (readBooks as real / total as real) * 100.0 else 0.0
  }

  /** The genre-distribution loop: count the books of each genre, the empty
      genre included. */
  method GenreCounts(lib: seq<Book>) returns (counts: map<string, nat>)
    ensures counts.Keys == Genres(lib)
    ensures forall g :: g in counts ==> counts[g] == CountGenre(lib, g)
    ensures MapSum(counts) == |lib|
  {
    counts := map[];
    for k := 0 to |lib|
      invariant counts == Tally(lib[..k])
    {
      var genre := lib[k].genre;
      assert lib[..k + 1][..k] == lib[..k];
      assert Tally(lib[..k + 1]) == Bump(counts, genre);
      if genre in counts {
        counts := counts[genre := counts[genre] + 1];
      } else {
        counts := counts[genre := 1];
      }
    }
    assert lib[..|lib|] == lib;
    TallyFacts(lib);
  }

  /** What one run of the statistics page shows. */
  datatype StatsOutcome =
    | NoBooks  // "Your library is empty."
    | Summary(total: nat, readBooks: nat, percentRead: real, genres: map<string, nat>)

  /** `display_stats`: the total, the number of read books, the percentage
      read and the genre distribution. */
  method Stats(lib: seq<Book>) returns (outcome: StatsOutcome)
    ensures lib == [] ==> outcome == NoBooks
    ensures lib != [] ==> outcome.Summary?
    ensures outcome.Summary? ==>
              outcome.total == |lib| &&
              outcome.readBooks == ReadCount(lib) &&
              outcome.readBooks <= outcome.total &&
              outcome.percentRead == PercentRead(outcome.readBooks, outcome.total) &&
              outcome.genres.Keys == Genres(lib) &&
              (forall g :: g in outcome.genres ==> outcome.genres[g] == CountGenre(lib, g)) &&
              MapSum(outcome.genres) == outcome.total
  {
    if lib == [] {
      return NoBooks;
    }
    var total := |lib|;
    var readBooks := ReadCount(lib);
    var percent := PercentRead(readBooks, total);
    var genres := GenreCounts(lib);
    outcome := Summary(total, readBooks, percent, genres);
  }
}
