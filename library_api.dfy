/**
 * The library client: turning the scraped issue table into one dictionary
 * per row, and formatting issued books as a fixed-layout text block. The
 * login request, the page request and the HTML parsing are outside the
 * model: a fetched page arrives as its header texts and row cell texts.
 */
module LibraryApi {
  import opened Wrappers
  import opened PyText

  /** One table row: header text to cell text. */
  type Book = map<string, string>

  /** What the HTML parser yields for the issue table. */
  datatype Page = Page(headerTexts: seq<string>, rows: seq<seq<string>>)

  /** What `get_book_issue_info` gives back: `None`, a list of rows, or an escaping IndexError. */
  datatype BookIssueInfo = NoInfo | Books(books: seq<Book>) | IndexErrorRaised

  /** Index `i` is the last position among the first `n` headers that holds `headers[i]`. */
  predicate LastOf(headers: seq<string>, n: int, i: int)
    requires 0 <= i < n <= |headers|
  {
    forall j :: i < j < n ==> headers[j] != headers[i]
  }

  /** The dictionary the comprehension builds from the first `|cells|` headers. */
  function Pairs(headers: seq<string>, cells: seq<string>): Book
    requires |cells| <= |headers|
  {
    if cells == [] then map[]
    else
      var n := |cells| - 1;
      Pairs(headers, cells[..n])[headers[n] := Strip(cells[n])]
  }

  /** The keys are exactly the headers that have a cell. */
  lemma {:induction false} PairsKeys(headers: seq<string>, cells: seq<string>)
    requires |cells| <= |headers|
    ensures forall k :: k in Pairs(headers, cells) <==> k in headers[..|cells|]
  {
    if cells != [] {
      var n := |cells| - 1;
      PairsKeys(headers, cells[..n]);
      assert headers[..n + 1] == headers[..n] + [headers[n]];
    }
  }

  /** Each header maps to the stripped text of the last cell under it. */
  lemma {:induction false} PairsValues(headers: seq<string>, cells: seq<string>)
    requires |cells| <= |headers|
    ensures forall i :: 0 <= i < |cells| && LastOf(headers, |cells|, i) ==>
      headers[i] in Pairs(headers, cells) && Pairs(headers, cells)[headers[i]] == Strip(cells[i])
  {
    if cells != [] {
      var n := |cells| - 1;
      var init := cells[..n];
      PairsValues(headers, init);
      forall i | 0 <= i < |cells| && LastOf(headers, |cells|, i)
        ensures headers[i] in Pairs(headers, cells) && Pairs(headers, cells)[headers[i]] == Strip(cells[i])
      {
        if i < n {
          assert headers[n] != headers[i];
          assert LastOf(headers, n, i);
          assert init[i] == cells[i];
        }
      }
    }
  }

  /**
   * `{headers[i]: cell.text.strip() for i, cell in enumerate(cells)}`:
   * `None` where `headers[i]` raises IndexError (more cells than headers).
   * What the dictionary holds is stated by `RowMapContents`.
   */
  function RowMap(headers: seq<string>, cells: seq<string>): (r: Option<Book>)
    ensures r.Some? <==> |cells| <= |headers|
  {
    if |cells| > |headers| then None else Some(Pairs(headers, cells))
  }

  /** A repeated header keeps the last cell; headers past the last cell are absent. */
  lemma RowMapContents(headers: seq<string>, cells: seq<string>)
    requires |cells| <= |headers|
    ensures var book := RowMap(headers, cells).value;
      && (forall k :: k in book <==> k in headers[..|cells|])
      && (forall i :: 0 <= i < |cells| && LastOf(headers, |cells|, i) ==>
            headers[i] in book && book[headers[i]] == Strip(cells[i]))
  {
    PairsKeys(headers, cells);
    PairsValues(headers, cells);
  }

  /** Rows to dictionaries; `None` if some row raises IndexError. */
  function TableRows(headers: seq<string>, rows: seq<seq<string>>): Option<seq<Book>>
  {
    if rows == [] then Some([])
    else
      var n := |rows| - 1;
      match TableRows(headers, rows[..n])
      case None => None
      case Some(books) =>
        match RowMap(headers, rows[n])
        case None => None
        case Some(book) => Some(books + [book])
  }

  /** Conversion succeeds exactly when no row has more cells than there are headers. */
  lemma {:induction false} TableRowsDefined(headers: seq<string>, rows: seq<seq<string>>)
    ensures TableRows(headers, rows).Some? <==> forall k :: 0 <= k < |rows| ==> |rows[k]| <= |headers|
  {
    if rows != [] {
      var n := |rows| - 1;
      var init := rows[..n];
      TableRowsDefined(headers, init);
      if TableRows(headers, init).None? {
        var k :| 0 <= k < n && |init[k]| > |headers|;
        assert rows[k] == init[k];
      } else if |rows[n]| <= |headers| {
        forall k | 0 <= k < |rows| ensures |rows[k]| <= |headers| {
          if k < n { assert rows[k] == init[k]; }
        }
      }
    }
  }

  /** On success there is one dictionary per row, in row order. */
  lemma {:induction false} TableRowsElements(headers: seq<string>, rows: seq<seq<string>>)
    requires TableRows(headers, rows).Some?
    ensures |TableRows(headers, rows).value| == |rows|
    ensures forall k :: 0 <= k < |rows| ==> RowMap(headers, rows[k]) == Some(TableRows(headers, rows).value[k])
  {
    if rows != [] {
      var n := |rows| - 1;
      var init := rows[..n];
      TableRowsElements(headers, init);
      var books := TableRows(headers, init).value + [RowMap(headers, rows[n]).value];
      assert TableRows(headers, rows).value == books;
      forall k | 0 <= k < |rows|
        ensures RowMap(headers, rows[k]) == Some(books[k])
      {
        if k < n { assert rows[k] == init[k]; }
      }
    }
  }

  /** The row loop of `get_book_issue_info`: appends one dictionary per row. */
  method ConvertRows(headers: seq<string>, rows: seq<seq<string>>) returns (r: Option<seq<Book>>)
    ensures r == TableRows(headers, rows)
  {
    var data: seq<Book> := [];
    var i := 0;
    while i < |rows|
      invariant 0 <= i <= |rows|
      invariant TableRows(headers, rows[..i]) == Some(data)
    {
      var rowData := RowMap(headers, rows[i]);
      assert rows[..i + 1][..i] == rows[..i];
      if rowData.None? {
        TableRowsFailurePersists(headers, rows, i + 1);
        return None;
      }
      data := data + [rowData.value];
      i := i + 1;
    }
    assert rows[..i] == rows;
    r := Some(data);
  }

  lemma {:induction false} TableRowsFailurePersists(headers: seq<string>, rows: seq<seq<string>>, j: nat)
    requires j <= |rows| && TableRows(headers, rows[..j]).None?
    ensures TableRows(headers, rows).None?
    decreases |rows| - j
  {
    if j < |rows| {
      assert rows[..j + 1][..j] == rows[..j];
      TableRowsFailurePersists(headers, rows, j + 1);
    } else {
      assert rows[..j] == rows;
    }
  }

  /** `[th.text.strip() for th in ...]`: every header text stripped. */
  function StripAll(texts: seq<string>): (r: seq<string>)
    ensures |r| == |texts| && forall i :: 0 <= i < |texts| ==> r[i] == Strip(texts[i])
  {
    seq(|texts|, i requires 0 <= i < |texts| => Strip(texts[i]))
  }

  /**
   * `get_book_issue_info` once the page is fetched and parsed: headers are
   * stripped, rows are converted; a missing page stands for a failed request,
   * a non-200 status or a missing table.
   */
  function GetBookIssueInfo(page: Option<Page>): (r: BookIssueInfo)
    ensures page.None? <==> r == NoInfo
    ensures page.Some? ==> (r == IndexErrorRaised <==>
      exists k :: 0 <= k < |page.value.rows| && |page.value.rows[k]| > |page.value.headerTexts|)
    ensures r.Books? ==> |r.books| == |page.value.rows| && forall k :: 0 <= k < |r.books| ==>
      RowMap(StripAll(page.value.headerTexts), page.value.rows[k]) == Some(r.books[k])
  {
    match page
    case None => NoInfo
    case Some(p) =>
      var headers := StripAll(p.headerTexts);
      TableRowsDefined(headers, p.rows);
      match TableRows(headers, p.rows)
      case None => IndexErrorRaised
      case Some(books) =>
        TableRowsElements(headers, p.rows);
        Books(books)
  }

  const NoData := "No book issue data available."
  const Opening := "```Library Book Issue Information:\n\n"
  const Closing := "```"
  const Fields: seq<string> := ["Accession No.", "Title", "Issue Date", "Return Date", "Over Due"]

  /** The first of the five fields, in the order the f-string reads them, that the book lacks. */
  function MissingField(book: Book): (r: Option<string>)
    ensures r.None? <==> forall f :: f in Fields ==> f in book
    ensures r.Some? ==> r.value in Fields && r.value !in book
    ensures r.Some? ==> exists j :: 0 <= j < |Fields| && Fields[j] == r.value && forall i :: 0 <= i < j ==> Fields[i] in book
  {
    if Fields[0] !in book then Some(Fields[0])
    else if Fields[1] !in book then Some(Fields[1])
    else if Fields[2] !in book then Some(Fields[2])
    else if Fields[3] !in book then Some(Fields[3])
    else if Fields[4] !in book then Some(Fields[4])
    else None
  }

  function Line(book: Book, field: string): string
    requires field in book
  {
    field + ": " + book[field] + "\n"
  }

  /** The five labelled lines of one book followed by a blank line. */
  function Block(book: Book): (s: string)
    requires MissingField(book).None?
  {
    Line(book, Fields[0]) + Line(book, Fields[1]) + Line(book, Fields[2])
    + Line(book, Fields[3]) + Line(book, Fields[4]) + "\n"
  }

  /** The formatter's result: the text, or the KeyError that escapes it. */
  datatype Formatted = Text(text: string) | KeyError(key: string)

  predicate Complete(books: seq<Book>) {
    forall i :: 0 <= i < |books| ==> MissingField(books[i]).None?
  }

  /** The blocks of the books, in input order; the KeyError of the first incomplete book. */
  function Body(books: seq<Book>): (r: Formatted)
    ensures r.Text? <==> Complete(books)
  {
    if books == [] then Text("")
    else
      var n := |books| - 1;
      match Body(books[..n])
      case KeyError(k) => KeyError(k)
      case Text(t) =>
        match MissingField(books[n])
        case Some(k) => KeyError(k)
        case None => Text(t + Block(books[n]))
  }

  /** What `format_book_issue_data` returns or raises. */
  function FormatSpec(data: Option<seq<Book>>): (r: Formatted)
    ensures data.None? || data.value == [] ==> r == Text(NoData)
    ensures r.KeyError? <==> data.Some? && !Complete(data.value)
  {
    match data
    case None => Text(NoData)
    case Some(books) =>
      if books == [] then Text(NoData)
      else
        match Body(books)
        case KeyError(k) => KeyError(k)
        case Text(t) => Text(Opening + t + Closing)
  }

  /** `format_book_issue_data`: grows the message one block per book. */
  method FormatBookIssueData(data: Option<seq<Book>>) returns (r: Formatted)
    ensures r == FormatSpec(data)
  {
    if data.None? || data.value == [] {
      return Text(NoData);
    }
    var books := data.value;
    var message := Opening;
    var i := 0;
    assert books[..0] == [];
    while i < |books|
      invariant 0 <= i <= |books|
      invariant Body(books[..i]).Text?
      invariant message == Opening + Body(books[..i]).text
    {
      var book := books[i];
      BodyAt(books, i);
      var missing := MissingField(book);
      if missing.Some? {
        BodyErrorPersists(books, i + 1);
        return KeyError(missing.value);
      }
      ghost var before := Body(books[..i]).text;
      message := message + Block(book);
      ConcatAssoc(Opening, before, Block(book));
      i := i + 1;
    }
    assert books[..i] == books;
    message := message + Closing;
    r := Text(message);
  }

  lemma ConcatAssoc(a: string, b: string, c: string)
    ensures (a + b) + c == a + (b + c)
  {
  }

  /** `Body` of the first `i + 1` books, from `Body` of the first `i`. */
  lemma BodyAt(books: seq<Book>, i: nat)
    requires i < |books| && Body(books[..i]).Text?
    ensures MissingField(books[i]).Some? ==> Body(books[..i + 1]) == KeyError(MissingField(books[i]).value)
    ensures MissingField(books[i]).None? ==> Body(books[..i + 1]) == Text(Body(books[..i]).text + Block(books[i]))
  {
    assert books[..i + 1][..i] == books[..i];
  }

  lemma {:induction false} BodyErrorPersists(books: seq<Book>, j: nat)
    requires j <= |books| && Body(books[..j]).KeyError?
    ensures Body(books) == Body(books[..j])
  {
    if j < |books| {
      var init := books[..|books| - 1];
      assert init[..j] == books[..j];
      BodyErrorPersists(init, j);
      BodyKeepsError(books);
    } else {
      assert books[..j] == books;
    }
  }

  lemma BodyKeepsError(books: seq<Book>)
    requires books != [] && Body(books[..|books| - 1]).KeyError?
    ensures Body(books) == Body(books[..|books| - 1])
  {
  }

  /** The KeyError names the first missing field of the first incomplete book. */
  lemma {:induction false} KeyErrorNamesFirstMissing(books: seq<Book>, i: nat)
    requires i < |books| && Complete(books[..i]) && MissingField(books[i]).Some?
    ensures FormatSpec(Some(books)) == KeyError(MissingField(books[i]).value)
  {
    assert books[..i + 1][..i] == books[..i];
    BodyErrorPersists(books, i + 1);
  }

  /** Appending a complete book to complete books appends its block to the body. */
  lemma BodySnoc(books: seq<Book>, book: Book)
    requires Complete(books) && MissingField(book).None?
    ensures Body(books + [book]) == Text(Body(books).text + Block(book))
  {
    var all := books + [book];
    assert all[..|books|] == books;
    assert all[..|books| + 1] == all;
    BodyAt(all, |books|);
  }

  /** A non-empty complete list formats to the opening, one block per book in order, and the closing. */
  lemma {:induction false} FormatAppendsBlock(books: seq<Book>, book: Book)
    requires Complete(books) && MissingField(book).None?
    ensures var r := FormatSpec(Some(books + [book]));
      && r.Text?
      && r.text == Opening + Body(books).text + Block(book) + Closing
      && r.text[..|Opening|] == Opening
      && r.text[|r.text| - |Closing|..] == Closing
  {
    BodySnoc(books, book);
    var t := Opening + Body(books).text + Block(book) + Closing;
    assert t == Opening + (Body(books).text + Block(book) + Closing);
  }
}
