/**
 * Two helpers of the workbench views (`workbench/views.py`): quoting an
 * argument for the shell that runs the uploader, and the column
 * permutation and header handling of a data-set import.
 */
module Views {
  import opened PyString

  // ---------------------------------------------------------------------
  // shellquote
  // ---------------------------------------------------------------------

  /** What a single quote becomes inside the quotes: close, an escaped quote, reopen */
  const QuoteEscape: string := "'\\''"

  /** `shellquote`: the argument between single quotes, each single quote in it escaped */
  function ShellQuote(s: string): (r: string)
    ensures |r| >= 2 && r[0] == '\'' && r[|r| - 1] == '\''
  {
    "'" + ReplaceAll(s, "'", QuoteEscape) + "'"
  }

  /** The argument with each single quote escaped, character by character */
  function Escape(s: string): (r: string)
    ensures |r| == |s| + 3 * Count(s, '\'')
  {
    if s == [] then []
    else (if s[0] == '\'' then QuoteEscape else [s[0]]) + Escape(s[1..])
  }

  function Count(s: string, c: char): nat {
    if s == [] then 0 else (if s[0] == c then 1 else 0) + Count(s[1..], c)
  }

  /** Replacing the one-character pattern is escaping each quote */
  lemma {:induction false} ReplaceQuotesIsEscape(s: string)
    ensures ReplaceAll(s, "'", QuoteEscape) == Escape(s)
  {
    if s != [] {
      ReplaceQuotesIsEscape(s[1..]);
      assert s[..1] == "'" <==> s[0] == '\'';
    }
  }

  /** The quoted form begins and ends with a quote and is three characters longer per quote */
  lemma ShellQuoteShape(s: string)
    ensures var q := ShellQuote(s);
      q[0] == '\'' && q[|q| - 1] == '\'' && |q| == |s| + 2 + 3 * Count(s, '\'')
  {
    ReplaceQuotesIsEscape(s);
  }

  /** Without a quote in it, the argument is only wrapped */
  lemma ShellQuoteNoQuote(s: string)
    requires '\'' !in s
    ensures ShellQuote(s) == "'" + s + "'"
  {
    forall i | 0 <= i
      ensures !OccursAt(s, "'", i)
    {
      if i + 1 <= |s| {
        assert s[i..i + 1] == [s[i]];
      }
    }
  }

  /**
   * How a POSIX shell reads a word made of single-quoted parts and
   * backslash escapes: outside quotes, a quote opens a quoted part and a
   * backslash takes the next character literally; inside, everything up
   * to the closing quote is literal. `None` for an unterminated quote or a
   * trailing backslash.
   */
  function Unquoted(w: string): Option<string>
    decreases |w|
  {
    if w == [] then Some([])
    else if w[0] == '\'' then Quoted(w[1..])
    else if w[0] == '\\' then
      if |w| < 2 then None else Prepend(w[1], Unquoted(w[2..]))
    else Prepend(w[0], Unquoted(w[1..]))
  }

  function Quoted(w: string): Option<string>
    decreases |w|
  {
    if w == [] then None
    else if w[0] == '\'' then Unquoted(w[1..])
    else Prepend(w[0], Quoted(w[1..]))
  }

  datatype Option<+T> = None | Some(value: T)

  function Prepend(c: char, r: Option<string>): Option<string> {
    if r.Some? then Some([c] + r.value) else None
  }

  /** Inside quotes, an escaped quote closes the quotes, gives a literal quote and reopens them */
  lemma QuoteEscapeStep(rest: string)
    ensures Quoted(QuoteEscape + rest) == Prepend('\'', Quoted(rest))
  {
    var a := "'" + rest;
    var b := "\\'" + a;
    var w := QuoteEscape + rest;
    assert a[0] == '\'' && a[1..] == rest;
    assert Unquoted(a) == Quoted(rest);
    assert b[0] == '\\' && b[1] == '\'' && b[2..] == a;
    assert Unquoted(b) == Prepend('\'', Quoted(rest));
    assert w[0] == '\'' && w[1..] == b;
  }

  /** Inside quotes, any other character is literal */
  lemma PlainStep(c: char, rest: string)
    requires c != '\''
    ensures Quoted([c] + rest) == Prepend(c, Quoted(rest))
  {
    assert ([c] + rest)[1..] == rest;
  }

  lemma {:induction false} QuotedEscape(s: string)
    ensures Quoted(Escape(s) + "'") == Some(s)
  {
    if s == [] {
      assert Escape(s) + "'" == "'";
    } else {
      QuotedEscape(s[1..]);
      var rest := Escape(s[1..]) + "'";
      if s[0] == '\'' {
        assert Escape(s) + "'" == QuoteEscape + rest;
        QuoteEscapeStep(rest);
      } else {
        assert Escape(s) + "'" == [s[0]] + rest;
        PlainStep(s[0], rest);
      }
      assert [s[0]] + s[1..] == s;
    }
  }

  /** The shell reads the quoted argument back as the argument itself */
  lemma ShellQuoteRoundTrip(s: string)
    ensures Unquoted(ShellQuote(s)) == Some(s)
  {
    ReplaceQuotesIsEscape(s);
    QuotedEscape(s);
    assert ShellQuote(s) == "'" + (Escape(s) + "'");
  }

  // ---------------------------------------------------------------------
  // Importing a data set
  // ---------------------------------------------------------------------

  /** `row[i]` in Python: a negative index counts from the end; out of range raises IndexError */
  function PyIndex(row: seq<string>, i: int): (r: Option<string>)
    ensures r.Some? <==> -|row| <= i < |row|
    ensures r.Some? ==> r.value == row[if i < 0 then |row| + i else i]
  {
    if 0 <= i < |row| then Some(row[i])
    else if -|row| <= i < 0 then Some(row[|row| + i])
    else None
  }

  /** `permute_columns`: the row's cells in the order of the index map; `None` for an IndexError */
  function PermuteColumns(row: seq<string>, indexMap: seq<int>): (r: Option<seq<string>>)
    ensures r.Some? <==> forall k :: 0 <= k < |indexMap| ==> PyIndex(row, indexMap[k]).Some?
    ensures r.Some? ==> |r.value| == |indexMap|
    ensures r.Some? ==> forall k :: 0 <= k < |indexMap| ==> Some(r.value[k]) == PyIndex(row, indexMap[k])
  {
    if indexMap == [] then Some([])
    else match (PyIndex(row, indexMap[0]), PermuteColumns(row, indexMap[1..]))
      case (Some(c), Some(rest)) =>
        assert forall k :: 1 <= k < |indexMap| ==> indexMap[k] == indexMap[1..][k - 1];
        Some([c] + rest)
      case _ =>
        assert forall k :: 1 <= k < |indexMap| ==> indexMap[k] == indexMap[1..][k - 1];
        None
  }

  /** Every row permuted, or `None` as soon as one raises */
  function PermuteRows(rows: seq<seq<string>>, indexMap: seq<int>): (r: Option<seq<seq<string>>>)
    ensures r.Some? <==> forall k :: 0 <= k < |rows| ==> PermuteColumns(rows[k], indexMap).Some?
    ensures r.Some? ==> |r.value| == |rows|
    ensures r.Some? ==> forall k :: 0 <= k < |rows| ==> Some(r.value[k]) == PermuteColumns(rows[k], indexMap)
  {
    if rows == [] then Some([])
    else match (PermuteColumns(rows[0], indexMap), PermuteRows(rows[1..], indexMap))
      case (Some(p), Some(rest)) =>
        assert forall k :: 1 <= k < |rows| ==> rows[k] == rows[1..][k - 1];
        Some([p] + rest)
      case _ =>
        assert forall k :: 1 <= k < |rows| ==> rows[k] == rows[1..][k - 1];
        None
  }

  /** `request.POST.get('hasHeader', 'false').lower() == 'true'` */
  function HasHeader(param: Option<string>): (r: bool)
    ensures param.None? ==> !r
    ensures r <==> param.Some? && Lower(param.value) == "true"
  {
    Lower(if param.Some? then param.value else "false") == "true"
  }

  /**
   * The rows `import_workbench` saves: every row of the file permuted
   * (the header too, so a short header raises), then the header dropped.
   */
  function ImportRows(rows: seq<seq<string>>, indexMap: seq<int>, hasHeader: Option<string>): (r: Option<seq<seq<string>>>)
    ensures r.Some? <==> PermuteRows(rows, indexMap).Some?
    ensures r.Some? ==> var drop := if HasHeader(hasHeader) && rows != [] then 1 else 0;
      |r.value| == |rows| - drop &&
      forall k :: 0 <= k < |r.value| ==> Some(r.value[k]) == PermuteColumns(rows[k + drop], indexMap)
  {
    match PermuteRows(rows, indexMap)
    case None => None
    case Some(data) =>
      var drop := if HasHeader(hasHeader) && data != [] then 1 else 0;
      Some(data[drop..])
  }

  /** Without a header every row is saved; with one, all but the first */
  lemma HeaderDropped(rows: seq<seq<string>>, indexMap: seq<int>)
    requires PermuteRows(rows, indexMap).Some? && rows != []
    ensures ImportRows(rows, indexMap, Some("True")) == Some(PermuteRows(rows, indexMap).value[1..])
    ensures ImportRows(rows, indexMap, None) == PermuteRows(rows, indexMap)
  {
    assert Lower("True") == "true";
    assert Lower("false") != "true";
  }
}
