/** What `convert_to_csv` does with the language model's reply before and
    after handing it to the CSV reader: trim it, take off one pair of
    ``` fences and a leading `csv` tag, insist on the exact header line,
    and insist that the columns read are exactly the required ones in
    order. */
module ResponseCleanup {
  import opened Ledger

  /** Why the reply was refused. */
  datatype ConvertError =
    | InvalidHeader(got: string)         // "Invalid CSV header. Expected: ..., Got: ..."
    | MissingColumns(missing: seq<string>) // "Missing required columns: [...]"
    | ColumnOrder                        // "Column order does not match required format"
    | ReadFailed                         // `pd.read_csv` raised (a non-numeric amount, a row too long)

  const Fence: string := "```"
  const CsvTag: string := "csv"
  const ExpectedHeader: string := "date,security,transaction_type,amount"
  const RequiredColumns: seq<string> := ["date", "security", "transaction_type", "amount"]

  /** Python's `str.isspace` for one character, by code point. */
  predicate IsSpace(c: char)
  {
    var n := c as int;
    n == 0x20 || 0x09 <= n <= 0x0D || 0x1C <= n <= 0x1F || n == 0x85 || n == 0xA0 ||
    n == 0x1680 || 0x2000 <= n <= 0x200A || n == 0x2028 || n == 0x2029 ||
    n == 0x202F || n == 0x205F || n == 0x3000
  }

  ghost predicate AllSpace(s: string)
  {
    forall i :: 0 <= i < |s| ==> IsSpace(s[i])
  }

  /** No whitespace at either end. */
  ghost predicate Trimmed(s: string)
  {
    s == [] || (!IsSpace(s[0]) && !IsSpace(s[|s| - 1]))
  }

  /** `lstrip()`: the longest all-whitespace prefix removed. */
  function TrimStart(s: string): (r: string)
    ensures |r| <= |s| && r == s[|s| - |r|..]
    ensures AllSpace(s[..|s| - |r|])
    ensures r == [] || !IsSpace(r[0])
    decreases |s|
  {
    if s != [] && IsSpace(s[0]) then
      var r := TrimStart(s[1..]);
      assert s[..|s| - |r|] == [s[0]] + s[1..][..|s[1..]| - |r|];
      r
    else s
  }

  /** `rstrip()`: the longest all-whitespace suffix removed. */
  function TrimEnd(s: string): (r: string)
    ensures |r| <= |s| && r == s[..|r|]
    ensures AllSpace(s[|r|..])
    ensures r == [] || !IsSpace(r[|r| - 1])
    decreases |s|
  {
    if s != [] && IsSpace(s[|s| - 1]) then
      var r := TrimEnd(s[..|s| - 1]);
      assert s[|r|..] == s[..|s| - 1][|r|..] + [s[|s| - 1]];
      r
    else s
  }

  /** `strip()`. */
  function Strip(s: string): (r: string)
    ensures Trimmed(r)
  {
    var t := TrimStart(s);
    var r := TrimEnd(t);
    assert r != [] ==> r[0] == t[0];
    r
  }

  lemma {:induction false} TrimStartOfPadded(w: string, t: string)
    requires AllSpace(w)
    requires t == [] || !IsSpace(t[0])
    ensures TrimStart(w + t) == t
    decreases |w|
  {
    if w == [] {
      assert w + t == t;
    } else {
      assert (w + t)[1..] == w[1..] + t;
      TrimStartOfPadded(w[1..], t);
    }
  }

  lemma {:induction false} TrimEndOfPadded(t: string, w: string)
    requires AllSpace(w)
    requires t == [] || !IsSpace(t[|t| - 1])
    ensures TrimEnd(t + w) == t
    decreases |w|
  {
    if w == [] {
      assert t + w == t;
    } else {
      assert (t + w)[..|t + w| - 1] == t + w[..|w| - 1];
      TrimEndOfPadded(t, w[..|w| - 1]);
    }
  }

  /** `strip()` removes exactly the whitespace around a trimmed text. */
  lemma StripOfPadded(w1: string, t: string, w2: string)
    requires AllSpace(w1) && AllSpace(w2) && Trimmed(t)
    ensures Strip(w1 + t + w2) == t
  {
    if t == [] {
      assert w1 + t + w2 == w1 + w2;
      TrimStartOfPadded(w1 + w2, []);
      assert w1 + w2 + [] == w1 + w2;
      TrimEndOfPadded([], []);
    } else {
      assert w1 + t + w2 == w1 + (t + w2);
      TrimStartOfPadded(w1, t + w2);
      TrimEndOfPadded(t, w2);
    }
  }

  /** Stripping a trimmed text changes nothing, so stripping twice is
      stripping once. */
  lemma StripTrimmed(t: string)
    requires Trimmed(t)
    ensures Strip(t) == t
  {
    assert TrimStart(t) == t;
    assert TrimEnd(t) == t;
  }

  predicate StartsWith(s: string, prefix: string)
  {
    |prefix| <= |s| && s[..|prefix|] == prefix
  }

  predicate EndsWith(s: string, suffix: string)
  {
    |suffix| <= |s| && s[|s| - |suffix|..] == suffix
  }

  /** Python's `s[3:-3]`: empty when the text is shorter than six. */
  function DropThreeEachEnd(s: string): string
  {
    if |s| >= 6 then s[3..|s| - 3] else []
  }

  /** `convert_to_csv` (utils/api.py:69-70): one pair of fences, only when the text both starts and
      ends with one. */
  function StripFence(s: string): string
  {
    if StartsWith(s, Fence) && EndsWith(s, Fence) then Strip(DropThreeEachEnd(s)) else s
  }

  /** `str.lower()` on one character, for ASCII letters. */
  function LowerChar(c: char): char
  {
    if 'A' <= c <= 'Z' then (c as int + 32) as char else c
  }

  /** `convert_to_csv` (utils/api.py:71-72): `s.lower().startswith('csv')`, then `s[3:].strip()`. */
  function StripCsvTag(s: string): string
  {
    if |s| >= 3 && LowerChar(s[0]) == 'c' && LowerChar(s[1]) == 's' && LowerChar(s[2]) == 'v'
    then Strip(s[3..])
    else s
  }

  /** `convert_to_csv` (utils/api.py:66-72): trim, take off the fences, take off the tag. */
  function Clean(content: string): (r: string)
    ensures Trimmed(r)
  {
    var s := Strip(content);
    var s' := StripFence(s);
    assert Trimmed(s');
    StripCsvTag(s')
  }

  /** Where the first line ends: the first newline, or the end of the text. */
  function LineEnd(s: string): (e: nat)
    ensures e <= |s|
    ensures e < |s| ==> s[e] == '\n'
    ensures forall i :: 0 <= i < e ==> s[i] != '\n'
  {
    if s == [] then 0
    else if s[0] == '\n' then 0
    else 1 + LineEnd(s[1..])
  }

  /** `s.split('\n')[0].strip()`. */
  function FirstLine(s: string): string
  {
    Strip(s[..LineEnd(s)])
  }

  /** `convert_to_csv` (utils/api.py:66-78): the cleaned reply if its first line is exactly the
      header, case and all; otherwise the first line it has instead. */
  function ValidateHeader(content: string): (r: Result<string, ConvertError>)
    ensures r.Ok? ==> r.value == Clean(content) && StartsWith(r.value, ExpectedHeader)
    ensures r.Ok? <==> HeaderLine(Clean(content))
    ensures r.Err? ==> r.error == InvalidHeader(FirstLine(Clean(content))) && r.error.got != ExpectedHeader
  {
    var c := Clean(content);
    var first := FirstLine(c);
    HeaderLineIffFirstLine(c);
    if first != ExpectedHeader then Err(InvalidHeader(first)) else Ok(c)
  }

  /** The text starts with the header and the rest of its first line is
      whitespace. */
  ghost predicate HeaderLine(c: string)
  {
    StartsWith(c, ExpectedHeader) && |ExpectedHeader| <= LineEnd(c) &&
    AllSpace(c[|ExpectedHeader|..LineEnd(c)])
  }

  /** The first line of a trimmed text has no leading whitespace. */
  lemma FirstLineStart(c: string)
    requires Trimmed(c)
    ensures TrimStart(c[..LineEnd(c)]) == c[..LineEnd(c)]
  {
    var line := c[..LineEnd(c)];
    if c != [] {
      assert c[0] != '\n';
      assert line[0] == c[0];
    }
  }

  lemma FirstLineIsHeader(c: string)
    requires Trimmed(c) && FirstLine(c) == ExpectedHeader
    ensures HeaderLine(c)
  {
    var e := LineEnd(c);
    var line := c[..e];
    var h := ExpectedHeader;
    FirstLineStart(c);
    assert TrimEnd(line) == h;
    assert line[..|h|] == h;
    assert c[..|h|] == h;
    assert c[|h|..e] == line[|h|..];
  }

  lemma HeaderIsFirstLine(c: string)
    requires Trimmed(c) && HeaderLine(c)
    ensures FirstLine(c) == ExpectedHeader
  {
    var e := LineEnd(c);
    var h := ExpectedHeader;
    FirstLineStart(c);
    assert c[..e] == c[..|h|] + c[|h|..e];
    TrimEndOfPadded(h, c[|h|..e]);
  }

  lemma HeaderLineIffFirstLine(c: string)
    requires Trimmed(c)
    ensures FirstLine(c) == ExpectedHeader <==> HeaderLine(c)
  {
    if FirstLine(c) == ExpectedHeader {
      FirstLineIsHeader(c);
    }
    if HeaderLine(c) {
      HeaderIsFirstLine(c);
    }
  }

  /** `convert_to_csv` (utils/api.py:92-99): all required columns present, then exactly the required
      list in order. A missing column is reported in the required order. */
  function CheckColumns(columns: seq<string>): (r: Result<(), ConvertError>)
    ensures r.Ok? <==> columns == RequiredColumns
    ensures r == Err(ColumnOrder) <==> (forall c :: c in RequiredColumns ==> c in columns) && columns != RequiredColumns
    ensures r.Err? && r.error.MissingColumns? ==> r.error.missing == Missing(RequiredColumns, columns) && r.error.missing != []
    ensures r.Err? ==> r.error.MissingColumns? || r.error.ColumnOrder?
  {
    if !(forall c :: c in RequiredColumns ==> c in columns) then Err(MissingColumns(Missing(RequiredColumns, columns)))
    else if columns != RequiredColumns then Err(ColumnOrder)
    else Ok(())
  }

  /** The whole post-processing: `read` is what the CSV reader makes of the
      cleaned text (utils/api.py:81-89), either the columns it found or the
      fact that it raised. The header is checked before the reader runs. */
  function ConvertToCsv(content: string, read: Result<seq<string>, ()>): (r: Result<string, ConvertError>)
    ensures r.Ok? <==> HeaderLine(Clean(content)) && read == Ok(RequiredColumns)
    ensures r.Ok? ==> r.value == Clean(content) && Trimmed(r.value) && StartsWith(r.value, ExpectedHeader)
    ensures !HeaderLine(Clean(content)) ==> r == Err(InvalidHeader(FirstLine(Clean(content))))
    ensures HeaderLine(Clean(content)) && read.Err? ==> r == Err(ReadFailed)
  {
    match ValidateHeader(content)
    case Err(e) => Err(e)
    case Ok(c) =>
      match read
      case Err(_) => Err(ReadFailed)
      case Ok(columns) =>
        match CheckColumns(columns)
        case Err(e) => Err(e)
        case Ok(_) => Ok(c)
  }

  /** Only one pair of fences comes off: a trimmed text inside one pair is
      returned as it is, even when it is itself fenced. */
  lemma StripOneFencePair(t: string)
    requires Trimmed(t)
    ensures StripFence(Fence + t + Fence) == t
  {
    var s := Fence + t + Fence;
    assert StartsWith(s, Fence) && EndsWith(s, Fence) by {
      assert s[..3] == Fence;
      assert s[|s| - 3..] == Fence;
    }
    assert DropThreeEachEnd(s) == t;
    StripTrimmed(t);
  }

  /** A text that does not both start and end with a fence keeps its
      backticks. */
  lemma FenceNeedsBothEnds(s: string)
    requires StartsWith(s, Fence) != EndsWith(s, Fence)
    ensures StripFence(s) == s
  {
  }

  /** The `csv` tag comes off whatever its case, with the whitespace after it. */
  lemma StripAnyCaseTag(tag: string, w: string, t: string)
    requires |tag| == 3 && (tag[0] == 'c' || tag[0] == 'C') && (tag[1] == 's' || tag[1] == 'S') && (tag[2] == 'v' || tag[2] == 'V')
    requires AllSpace(w) && Trimmed(t)
    ensures StripCsvTag(tag + w + t) == t
  {
    var s := tag + w + t;
    assert s[0] == tag[0] && s[1] == tag[1] && s[2] == tag[2];
    assert LowerChar(s[0]) == 'c' && LowerChar(s[1]) == 's' && LowerChar(s[2]) == 'v';
    assert s[3..] == w + t + [];
    StripOfPadded(w, t, []);
  }

  /** A fenced text whose inside is trimmed loses its fences. */
  lemma StripFenceOf(inner: string)
    requires |inner| > 0 && !IsSpace(inner[0])
    ensures StripFence(Fence + inner + Fence) == Strip(inner)
  {
    var s := Fence + inner + Fence;
    assert s[..3] == Fence;
    assert s[|s| - 3..] == Fence;
    assert s[3..|s| - 3] == inner;
  }

  /** A trimmed text loses nothing to the first `strip()`. */
  lemma CleanOfTrimmed(s: string)
    requires Trimmed(s)
    ensures Clean(s) == StripCsvTag(StripFence(s))
  {
    StripTrimmed(s);
  }

  /** The tag line and the newline before the closing fence come off. */
  lemma TaggedBody(t: string)
    requires Trimmed(t)
    ensures StripCsvTag(Strip(CsvTag + "\n" + t + "\n")) == t
  {
    if t == [] {
      assert CsvTag + "\n" + t + "\n" == [] + CsvTag + "\n\n";
      StripOfPadded([], CsvTag, "\n\n");
      assert CsvTag == CsvTag + [] + [];
      StripAnyCaseTag(CsvTag, [], []);
    } else {
      var tagged := CsvTag + "\n" + t;
      assert Trimmed(tagged);
      assert tagged + "\n" == [] + tagged + "\n";
      StripOfPadded([], tagged, "\n");
      StripAnyCaseTag(CsvTag, "\n", t);
    }
  }

  /** A fenced text whose inside starts with a non-space character is
      cleaned as its inside. */
  lemma CleanOfFenced(inner: string)
    requires |inner| > 0 && !IsSpace(inner[0])
    ensures Clean(Fence + inner + Fence) == StripCsvTag(Strip(inner))
  {
    var s := Fence + inner + Fence;
    assert Trimmed(s) by {
      assert s[0] == '`' && s[|s| - 1] == '`';
    }
    CleanOfTrimmed(s);
    StripFenceOf(inner);
  }

  /** A reply fenced as a csv code block comes out as its body. */
  lemma CleanFencedCsvBlock(t: string)
    requires Trimmed(t)
    ensures Clean(Fence + (CsvTag + "\n" + t + "\n") + Fence) == t
  {
    var inner := CsvTag + "\n" + t + "\n";
    assert inner[0] == 'c';
    CleanOfFenced(inner);
    TaggedBody(t);
  }

  /** Stripping a text that starts with a non-space keeps its first
      character. */
  lemma StripKeepsHead(s: string)
    requires s != [] && !IsSpace(s[0])
    ensures Strip(s) != [] && Strip(s)[0] == s[0]
  {
    assert TrimStart(s) == s;
  }

  /** The header test is case-sensitive: a reply starting `Date` rather
      than `date` is refused, whatever follows. */
  lemma HeaderIsCaseSensitive(content: string)
    requires content != [] && content[0] == 'D'
    ensures ValidateHeader(content).Err?
  {
    StripKeepsHead(content);
    var c := Strip(content);
    assert !StartsWith(c, Fence) by {
      if |c| >= 3 {
        assert c[..3][0] != Fence[0];
      }
    }
    assert StripFence(c) == c;
    assert LowerChar(c[0]) == 'd';
    assert StripCsvTag(c) == c;
    assert Clean(content) == c;
    assert !HeaderLine(c) by {
      if |ExpectedHeader| <= |c| {
        assert c[..|ExpectedHeader|][0] != ExpectedHeader[0];
      }
    }
  }
}
