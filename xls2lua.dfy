/**
 * The spreadsheet-to-Lua exporter: the header scan of a sheet, the data grab,
 * the per-type formatting of every cell, the row layout and the assembly of the
 * generated Lua module.  A sheet is a grid of cell values; workbook reading is
 * outside the model, and Python's int() and float() on a cell are parameters.
 */
module Xls2Lua {
  import opened Wrappers
  import opened Decimal

  /** What a spreadsheet cell holds.  A numeric cell carries the text Python's str() gives for it. */
  datatype Value = Missing | Text(s: string) | Number(repr: string) | Flag(b: bool)

  /** The exceptions the exporter can raise while formatting cells. */
  datatype PyError = ValueError | AttributeError

  /**
   * Python's conversions of a cell, which the model does not reimplement:
   * int(v) and str(float(v)), each None when the conversion raises.
   */
  datatype Python = Python(toInt: Value -> Option<int>, floatText: Value -> Option<string>)

  /** Python's str() of a cell value. */
  function StrOf(v: Value): string
  {
    match v
    case Missing => "None"
    case Text(s) => s
    case Number(repr) => repr
    case Flag(b) => if b then "True" else "False"
  }

  // ---------------------------------------------------------------- strings

  /** Python's s.split(sep) for a one-character separator. */
  function Split(s: string, sep: char): (r: seq<string>)
    ensures |r| >= 1
    ensures forall i :: 0 <= i < |r| ==> sep !in r[i]
    decreases |s|
  {
    if |s| == 0 then [""]
    else
      var rest := Split(s[1..], sep);
      if s[0] == sep then [""] + rest else [[s[0]] + rest[0]] + rest[1..]
  }

  /** Python's sep.join(parts) for a one-character separator. */
  function Join(parts: seq<string>, sep: char): string
  {
    if |parts| == 0 then ""
    else if |parts| == 1 then parts[0]
    else parts[0] + [sep] + Join(parts[1..], sep)
  }

  /** Joining the pieces of a split gives the original text back. */
  lemma {:induction false} JoinSplit(s: string, sep: char)
    ensures Join(Split(s, sep), sep) == s
    decreases |s|
  {
    if |s| > 0 {
      var rest := Split(s[1..], sep);
      JoinSplit(s[1..], sep);
      if s[0] == sep {
        assert Split(s, sep) == [""] + rest;
        assert ([""] + rest)[1..] == rest;
      } else {
        var r := Split(s, sep);
        assert r == [[s[0]] + rest[0]] + rest[1..];
        if |rest| > 1 {
          assert r[1..] == rest[1..];
        }
      }
    }
  }

  /** A text without the separator splits into itself. */
  lemma {:induction false} SplitNone(a: string, sep: char)
    requires sep !in a
    ensures Split(a, sep) == [a]
    decreases |a|
  {
    if |a| > 0 {
      SplitNone(a[1..], sep);
      assert [a[0]] + a[1..] == a;
    }
  }

  /** Splitting at the first separator peels off the text before it. */
  lemma {:induction false} SplitAppend(a: string, b: string, sep: char)
    requires sep !in a
    ensures Split(a + [sep] + b, sep) == [a] + Split(b, sep)
    decreases |a|
  {
    var s := a + [sep] + b;
    if |a| == 0 {
      assert s[1..] == b;
    } else {
      assert s[1..] == a[1..] + [sep] + b;
      SplitAppend(a[1..], b, sep);
      assert [a[0]] + a[1..] == a;
    }
  }

  /** Splitting a join of separator-free pieces gives the pieces back. */
  lemma {:induction false} SplitJoin(parts: seq<string>, sep: char)
    requires |parts| >= 1
    requires forall i :: 0 <= i < |parts| ==> sep !in parts[i]
    ensures Split(Join(parts, sep), sep) == parts
    decreases |parts|
  {
    if |parts| == 1 {
      SplitNone(parts[0], sep);
    } else {
      SplitJoin(parts[1..], sep);
      SplitAppend(parts[0], Join(parts[1..], sep), sep);
      assert [parts[0]] + parts[1..] == parts;
    }
  }

  /** Python's s.replace('"', '\\"'): every double quote gets a backslash in front. */
  function Escape(s: string): string
  {
    if |s| == 0 then ""
    else (if s[0] == '"' then "\\\"" else [s[0]]) + Escape(s[1..])
  }

  /** The reading a Lua lexer gives an escaped text: a backslash-quote pair is one quote. */
  function Unescape(t: string): string
  {
    if |t| == 0 then ""
    else if |t| >= 2 && t[0] == '\\' && t[1] == '"' then "\"" + Unescape(t[2..])
    else [t[0]] + Unescape(t[1..])
  }

  /** An escaped text never begins with a bare quote. */
  lemma EscapeHead(s: string)
    requires |s| > 0
    ensures Escape(s)[0] != '"'
  {
  }

  /** Escaping loses nothing: unescaping gives the original text back. */
  lemma {:induction false} UnescapeEscape(s: string)
    ensures Unescape(Escape(s)) == s
    decreases |s|
  {
    if |s| > 0 {
      UnescapeEscape(s[1..]);
      var e := Escape(s[1..]);
      if s[0] == '"' {
        assert Escape(s) == "\\\"" + e;
        assert ("\\\"" + e)[2..] == e;
      } else {
        assert Escape(s) == [s[0]] + e;
        if |e| > 0 {
          EscapeHead(s[1..]);
        }
        assert ([s[0]] + e)[1..] == e;
        assert [s[0]] + s[1..] == s;
      }
    }
  }

  /** A text with no quote is left as it is by escaping. */
  lemma {:induction false} EscapePlain(s: string)
    requires '"' !in s
    ensures Escape(s) == s
    decreases |s|
  {
    if |s| > 0 {
      EscapePlain(s[1..]);
      assert [s[0]] + s[1..] == s;
    }
  }

  /** A Lua string literal for s, as the source writes it: "\"%s\"" % s.replace('"', '\\"'). */
  function Quote(s: string): string
  {
    "\"" + Escape(s) + "\""
  }

  /** Different texts give different literals. */
  lemma QuoteInjective(s: string, t: string)
    requires Quote(s) == Quote(t)
    ensures s == t
  {
    assert Escape(s) == Quote(s)[1..|Quote(s)| - 1];
    assert Escape(t) == Quote(t)[1..|Quote(t)| - 1];
    UnescapeEscape(s);
    UnescapeEscape(t);
  }

  /** The literal of a quote-free text w is w in quotes, and no other text has it. */
  lemma QuotePlain(s: string, w: string)
    requires '"' !in w
    ensures Quote(w) == "\"" + w + "\""
    ensures Quote(s) == Quote(w) <==> s == w
  {
    EscapePlain(w);
    if Quote(s) == Quote(w) {
      QuoteInjective(s, w);
    }
  }

  /** The literal of s is "\"true\"" exactly when s is "true", and likewise for "false". */
  lemma QuoteLiteral(s: string)
    ensures Quote(s) == "\"true\"" <==> s == "true"
    ensures Quote(s) == "\"false\"" <==> s == "false"
  {
    QuotePlain(s, "true");
    QuotePlain(s, "false");
  }

  function Upper(c: char): char
  {
    if 'a' <= c <= 'z' then c - 'a' + 'A' else c
  }

  function Lower(c: char): char
  {
    if 'A' <= c <= 'Z' then c - 'A' + 'a' else c
  }

  function LowerAll(s: string): (r: string)
    ensures |r| == |s|
    ensures forall i :: 0 <= i < |s| ==> r[i] == Lower(s[i])
  {
    if |s| == 0 then "" else [Lower(s[0])] + LowerAll(s[1..])
  }

  /** Python's str.capitalize() on ASCII text: the first letter upper case, the rest lower case. */
  function Capitalize(s: string): (r: string)
    ensures |r| == |s|
    ensures |s| > 0 ==> r[0] == Upper(s[0]) && !('a' <= r[0] <= 'z')
    ensures forall i :: 1 <= i < |s| ==> r[i] == Lower(s[i]) && !('A' <= r[i] <= 'Z')
  {
    if |s| == 0 then "" else [Upper(s[0])] + LowerAll(s[1..])
  }

  /** Capitalising twice changes nothing more. */
  lemma CapitalizeIdempotent(s: string)
    ensures Capitalize(Capitalize(s)) == Capitalize(s)
  {
    var c := Capitalize(s);
    assert Capitalize(c) == c;
  }

  // ---------------------------------------------------------------- header rows

  /**
   * The export filter on a type tag: "T|client" becomes T, "T|x" for any other x
   * becomes None, and a tag that does not split into exactly two parts is kept.
   */
  function TypeTag(v: Value): Value
  {
    var parts := Split(StrOf(v), '|');
    if |parts| == 2 then
      if parts[1] == "client" then Text(parts[0]) else Missing
    else v
  }

  /** A tag "t|u" keeps the type t of a client-side column (u is "client") and drops every other column. */
  lemma TagTwoParts(t: string, u: string)
    requires '|' !in t && '|' !in u
    ensures TypeTag(Text(t + "|" + u)) == if u == "client" then Text(t) else Missing
  {
    var s := t + "|" + u;
    assert s == t + ['|'] + u;
    SplitAppend(t, u, '|');
    SplitNone(u, '|');
    assert Split(s, '|') == [t, u];
  }

  /** A tag without a bar is kept as it is. */
  lemma TagPlain(v: Value)
    requires '|' !in StrOf(v)
    ensures TypeTag(v) == v
  {
    SplitNone(StrOf(v), '|');
  }

  /** A tag with two or more bars is kept as it is. */
  lemma TagMany(t: string, u: string, w: string)
    requires '|' !in t && '|' !in u
    ensures TypeTag(Text(t + "|" + u + "|" + w)) == Text(t + "|" + u + "|" + w)
  {
    SplitAppend(u, w, '|');
    SplitAppend(t, u + "|" + w, '|');
    assert t + "|" + u + "|" + w == t + ['|'] + (u + ['|'] + w);
  }

  /**
   * Reads the key row (row 2) and the type row (row 1) of a sheet, column by
   * column, up to the first column whose type cell is None, and filters each
   * type tag.
   */
  method ParseTitleType(sheet: seq<seq<Value>>, col: nat) returns (keys: seq<Value>, types: seq<Value>)
    requires 3 <= |sheet| && col <= |sheet[1]| && col <= |sheet[2]|
    ensures |keys| == |types| <= col
    ensures forall c :: 0 <= c < |keys| ==> sheet[1][c] != Missing
    ensures |keys| < col ==> sheet[1][|keys|] == Missing
    ensures forall c :: 0 <= c < |keys| ==> keys[c] == sheet[2][c] && types[c] == TypeTag(sheet[1][c])
  {
    keys, types := [], [];
    var c := 0;
    while c < col && sheet[1][c] != Missing
      invariant c <= col && |keys| == |types| == c
      invariant forall i :: 0 <= i < c ==> sheet[1][i] != Missing
      invariant forall i :: 0 <= i < c ==> keys[i] == sheet[2][i] && types[i] == TypeTag(sheet[1][i])
    {
      keys := keys + [sheet[2][c]];
      types := types + [TypeTag(sheet[1][c])];
      c := c + 1;
    }
  }

  /** A None cell of the data area reads as the text 'nil'. */
  function NilIfMissing(v: Value): (r: Value)
    ensures r != Missing
    ensures v != Missing ==> r == v
  {
    if v == Missing then Text("nil") else v
  }

  /** Reads rows 3 .. 3+rowCount-1 of the sheet, keyCount cells each, None becoming 'nil'. */
  method GetDataByExcel(sheet: seq<seq<Value>>, rowCount: nat, keyCount: nat) returns (rows: seq<seq<Value>>)
    requires rowCount + 3 <= |sheet|
    requires forall r :: 3 <= r < rowCount + 3 ==> keyCount <= |sheet[r]|
    ensures |rows| == rowCount
    ensures forall r :: 0 <= r < rowCount ==> |rows[r]| == keyCount
    ensures forall r, c :: 0 <= r < rowCount && 0 <= c < keyCount ==>
              rows[r][c] == NilIfMissing(sheet[r + 3][c])
  {
    rows := [];
    for row := 0 to rowCount
      invariant |rows| == row
      invariant forall r :: 0 <= r < row ==> |rows[r]| == keyCount
      invariant forall r, c :: 0 <= r < row && 0 <= c < keyCount ==>
                  rows[r][c] == NilIfMissing(sheet[r + 3][c])
    {
      var cells: seq<Value> := [];
      for col := 0 to keyCount
        invariant |cells| == col
        invariant forall c :: 0 <= c < col ==> cells[c] == NilIfMissing(sheet[row + 3][c])
      {
        cells := cells + [NilIfMissing(sheet[row + 3][col])];
      }
      rows := rows + [cells];
    }
  }

  // ---------------------------------------------------------------- cells

  /** The value written for one k=v part of a table cell: quoted, except true and false. */
  function TableValue(v: string): string
  {
    var q := Quote(v);
    if q == "\"true\"" then "true" else if q == "\"false\"" then "false" else q
  }

  /** One comma-separated part of a table cell, as a Lua table field. */
  function Entry(part: string): string
  {
    var kv := Split(part, '=');
    if |kv| == 2 then
      if IsDigits(kv[0]) then "[" + kv[0] + "] = " + TableValue(kv[1])
      else kv[0] + " = " + TableValue(kv[1])
    else part
  }

  function Entries(parts: seq<string>): (r: seq<string>)
    ensures |r| == |parts|
    ensures forall i :: 0 <= i < |parts| ==> r[i] == Entry(parts[i])
  {
    if |parts| == 0 then [] else [Entry(parts[0])] + Entries(parts[1..])
  }

  /** A table cell as a Lua table constructor. */
  function Table(s: string): string
  {
    "{" + Join(Entries(Split(s, ',')), ',') + "}"
  }

  /** A part with a digit key becomes a bracketed index: 3=x gives [3] = "x". */
  lemma EntryIndexed(k: string, v: string)
    requires IsDigits(k) && '=' !in v && v != "true" && v != "false"
    ensures Entry(k + "=" + v) == "[" + k + "] = " + Quote(v)
  {
    assert forall i :: 0 <= i < |k| ==> k[i] != '=';
    SplitNone(v, '=');
    SplitAppend(k, v, '=');
    assert k + "=" + v == k + ['='] + v;
    QuoteLiteral(v);
  }

  /** A part with any other key becomes a named field: name=x gives name = "x". */
  lemma EntryNamed(k: string, v: string)
    requires !IsDigits(k) && '=' !in k && '=' !in v && v != "true" && v != "false"
    ensures Entry(k + "=" + v) == k + " = " + Quote(v)
  {
    SplitNone(v, '=');
    SplitAppend(k, v, '=');
    assert k + "=" + v == k + ['='] + v;
    QuoteLiteral(v);
  }

  /** The values true and false stay Lua booleans, unquoted. */
  lemma EntryBoolean(k: string, v: string)
    requires '=' !in k && (v == "true" || v == "false")
    ensures Entry(k + "=" + v) == (if IsDigits(k) then "[" + k + "] = " else k + " = ") + v
  {
    SplitNone(v, '=');
    SplitAppend(k, v, '=');
    assert k + "=" + v == k + ['='] + v;
    QuoteLiteral(v);
  }

  /** A part without '=' is copied verbatim. */
  lemma EntryVerbatim(part: string)
    requires '=' !in part
    ensures Entry(part) == part
  {
    SplitNone(part, '=');
  }

  /** A part with two or more '=' is copied verbatim too. */
  lemma EntryVerbatimMany(k: string, v: string, w: string)
    requires '=' !in k && '=' !in v
    ensures Entry(k + "=" + v + "=" + w) == k + "=" + v + "=" + w
  {
    SplitAppend(v, w, '=');
    SplitAppend(k, v + "=" + w, '=');
    assert k + "=" + v + "=" + w == k + ['='] + (v + ['='] + w);
  }

  /** A table cell written as comma-joined parts gives those parts' fields, comma-joined, in braces. */
  lemma TableOfParts(parts: seq<string>)
    requires |parts| >= 1
    requires forall i :: 0 <= i < |parts| ==> ',' !in parts[i]
    ensures Table(Join(parts, ',')) == "{" + Join(Entries(parts), ',') + "}"
  {
    SplitJoin(parts, ',');
  }

  /** Builds the table constructor part by part, as the exporter's inner loop does. */
  method FormatTable(s: string) returns (r: string)
    ensures r == Table(s)
  {
    var parts := Split(s, ',');
    var fields: seq<string> := [];
    for i := 0 to |parts|
      invariant fields == Entries(parts[..i])
    {
      assert parts[..i + 1] == parts[..i] + [parts[i]];
      fields := fields + [Entry(parts[i])];
    }
    assert parts[..|parts|] == parts;
    r := "{" + Join(fields, ',') + "}";
  }

  /** An empty cell: None or the empty text. */
  predicate Empty(v: Value)
  {
    v == Missing || v == Text("")
  }

  /** The Lua text for one cell of a column of type ty, or the exception raised on the way. */
  function Render(ty: Value, v: Value, py: Python): Result<string, PyError>
  {
    if ty == Text("int") then
      if Empty(v) then Ok("nil")
      else match py.toInt(v)
        case None => Err(ValueError)
        case Some(n) => Ok(IntText(n))
    else if ty == Text("float") then
      if Empty(v) then Ok("nil")
      else match py.floatText(v)
        case None => Err(ValueError)
        case Some(t) => Ok(t)
    else if ty == Text("string") then
      if Empty(v) then Ok("nil") else Ok(Quote(StrOf(v)))
    else if ty == Text("bool") then
      if Empty(v) || v == Text("false") then Ok("false") else Ok(StrOf(v))
    else if ty == Text("table") then
      if Empty(v) then Ok("nil")
      else if v.Text? then Ok(Table(v.s))
      else Err(AttributeError)
    else if Empty(v) then Ok("nil")
    else Ok(StrOf(v))
  }

  /** Formats one cell by the type of its column. */
  method RenderCell(ty: Value, v: Value, py: Python) returns (r: Result<string, PyError>)
    ensures r == Render(ty, v, py)
  {
    var empty := v == Missing || v == Text("");
    if ty == Text("int") {
      if empty {
        r := Ok("nil");
      } else {
        match py.toInt(v)
        case None => r := Err(ValueError);
        case Some(n) => r := Ok(IntText(n));
      }
    } else if ty == Text("float") {
      if empty {
        r := Ok("nil");
      } else {
        match py.floatText(v)
        case None => r := Err(ValueError);
        case Some(t) => r := Ok(t);
      }
    } else if ty == Text("string") {
      r := if empty then Ok("nil") else Ok(Quote(StrOf(v)));
    } else if ty == Text("bool") {
      r := if empty || v == Text("false") then Ok("false") else Ok(StrOf(v));
    } else if ty == Text("table") {
      if empty {
        r := Ok("nil");
      } else if v.Text? {
        var t := FormatTable(v.s);
        r := Ok(t);
      } else {
        r := Err(AttributeError);
      }
    } else {
      r := if empty then Ok("nil") else Ok(StrOf(v));
    }
  }

  /** An empty cell is nil, except in a bool column, where it is false. */
  lemma RenderEmpty(ty: Value, v: Value, py: Python)
    requires Empty(v)
    ensures Render(ty, v, py) == if ty == Text("bool") then Ok("false") else Ok("nil")
  {
  }

  /** A string cell is a Lua string literal whose contents read back as the cell's text. */
  lemma RenderString(v: Value, py: Python)
    requires !Empty(v)
    ensures Render(Text("string"), v, py).Ok?
    ensures var t := Render(Text("string"), v, py).value;
              2 <= |t| && t[0] == '"' && t[|t| - 1] == '"' && Unescape(t[1..|t| - 1]) == StrOf(v)
  {
    var t := Quote(StrOf(v));
    assert t[1..|t| - 1] == Escape(StrOf(v));
    UnescapeEscape(StrOf(v));
  }

  /** A bool cell other than 'false' passes through unchanged. */
  lemma RenderBool(v: Value, py: Python)
    requires !Empty(v)
    ensures Render(Text("bool"), v, py) == if v == Text("false") then Ok("false") else Ok(StrOf(v))
  {
  }

  // ---------------------------------------------------------------- rows

  /** A column is left out when its type or key is None or prints as the empty text. */
  predicate Skip(ty: Value, key: Value)
  {
    ty == Missing || |StrOf(ty)| == 0 || key == Missing || |StrOf(key)| == 0
  }

  /** One field of a row: " key = value". */
  function ItemText(key: Value, value: string): string
  {
    " " + StrOf(key) + " = " + value
  }

  /** The fields of the first n columns of a row, or the first exception. */
  function Items(cells: seq<Value>, types: seq<Value>, keys: seq<Value>, py: Python, n: nat): Result<seq<string>, PyError>
    requires n <= |types| == |keys| <= |cells|
  {
    if n == 0 then Ok([])
    else match Items(cells, types, keys, py, n - 1)
      case Err(e) => Err(e)
      case Ok(prev) =>
        if Skip(types[n - 1], keys[n - 1]) then Ok(prev)
        else match Render(types[n - 1], cells[n - 1], py)
          case Err(e) => Err(e)
          case Ok(t) => Ok(prev + [ItemText(keys[n - 1], t)])
  }

  /** The number of columns among the first n that are not left out. */
  function Emitted(types: seq<Value>, keys: seq<Value>, n: nat): nat
    requires n <= |types| == |keys|
  {
    if n == 0 then 0
    else Emitted(types, keys, n - 1) + (if Skip(types[n - 1], keys[n - 1]) then 0 else 1)
  }

  /** A row has one field per column that is not left out. */
  lemma {:induction false} ItemsCount(cells: seq<Value>, types: seq<Value>, keys: seq<Value>, py: Python, n: nat)
    requires n <= |types| == |keys| <= |cells|
    requires Items(cells, types, keys, py, n).Ok?
    ensures |Items(cells, types, keys, py, n).value| == Emitted(types, keys, n)
  {
    if n > 0 {
      ItemsCount(cells, types, keys, py, n - 1);
    }
  }

  /** The cells under left-out columns have no effect on the row. */
  lemma {:induction false} ItemsIgnoreSkipped(cells: seq<Value>, other: seq<Value>, types: seq<Value>, keys: seq<Value>, py: Python, n: nat)
    requires n <= |types| == |keys| <= |cells| && |keys| <= |other|
    requires forall c :: 0 <= c < n && !Skip(types[c], keys[c]) ==> cells[c] == other[c]
    ensures Items(cells, types, keys, py, n) == Items(other, types, keys, py, n)
  {
    if n > 0 {
      ItemsIgnoreSkipped(cells, other, types, keys, py, n - 1);
    }
  }

  /** Once a column raises, the row raises the same exception. */
  lemma {:induction false} ItemsErrSticky(cells: seq<Value>, types: seq<Value>, keys: seq<Value>, py: Python, n: nat, m: nat)
    requires n <= m <= |types| == |keys| <= |cells|
    requires Items(cells, types, keys, py, n).Err?
    ensures Items(cells, types, keys, py, m) == Items(cells, types, keys, py, n)
    decreases m - n
  {
    if n < m {
      ItemsErrSticky(cells, types, keys, py, n + 1, m);
    }
  }

  /**
   * The key of row `row`: int(first cell) when column 0 is an int column called
   * id, except that an id of 0 falls back to row+1 (Python's and/or idiom), and
   * row+1 otherwise.
   */
  function RowKey(cells: seq<Value>, row: nat, types: seq<Value>, keys: seq<Value>, py: Python): Result<int, PyError>
    requires |types| == |keys| <= |cells|
  {
    if |keys| > 0 && keys[0] == Text("id") && types[0] == Text("int") then
      match py.toInt(cells[0])
      case None => Err(ValueError)
      case Some(n) => if n != 0 then Ok(n) else Ok(row + 1)
    else Ok(row + 1)
  }

  /** Rows keyed by id use that id; every other row falls back to its 1-based position. */
  lemma RowKeyChoice(cells: seq<Value>, row: nat, types: seq<Value>, keys: seq<Value>, py: Python)
    requires |types| == |keys| <= |cells|
    ensures var idKeyed := |keys| > 0 && keys[0] == Text("id") && types[0] == Text("int");
            (!idKeyed ==> RowKey(cells, row, types, keys, py) == Ok(row + 1)) &&
            (idKeyed && py.toInt(cells[0]) == None ==> RowKey(cells, row, types, keys, py) == Err(ValueError)) &&
            (idKeyed && py.toInt(cells[0]).Some? ==>
               RowKey(cells, row, types, keys, py) ==
                 Ok(if py.toInt(cells[0]).value == 0 then row + 1 else py.toInt(cells[0]).value))
  {
  }

  /** One row of the generated table: "\t[key] = { k = v, ... },\n". */
  function RowText(key: int, items: seq<string>): string
  {
    "\t[" + IntText(key) + "] = {" + Join(items, ',') + " },\n"
  }

  /** The text of one row, or the first exception raised while formatting it. */
  function Row(cells: seq<Value>, row: nat, types: seq<Value>, keys: seq<Value>, py: Python): Result<string, PyError>
    requires |types| == |keys| <= |cells|
  {
    match Items(cells, types, keys, py, |types|)
    case Err(e) => Err(e)
    case Ok(items) =>
      match RowKey(cells, row, types, keys, py)
      case Err(e) => Err(e)
      case Ok(k) => Ok(RowText(k, items))
  }

  /** Every row of tbl holds a cell for every column. */
  predicate Wide(tbl: seq<seq<Value>>, types: seq<Value>)
  {
    forall r :: 0 <= r < |tbl| ==> |types| <= |tbl[r]|
  }

  /** The text of the first n rows, or the first exception. */
  function Rows(tbl: seq<seq<Value>>, types: seq<Value>, keys: seq<Value>, py: Python, n: nat): Result<string, PyError>
    requires n <= |tbl| && |types| == |keys| && Wide(tbl, types)
  {
    if n == 0 then Ok("")
    else match Rows(tbl, types, keys, py, n - 1)
      case Err(e) => Err(e)
      case Ok(prev) =>
        match Row(tbl[n - 1], n - 1, types, keys, py)
        case Err(e) => Err(e)
        case Ok(t) => Ok(prev + t)
  }

  /** Once a row raises, the whole table raises the same exception. */
  lemma {:induction false} RowsErrSticky(tbl: seq<seq<Value>>, types: seq<Value>, keys: seq<Value>, py: Python, n: nat, m: nat)
    requires n <= m <= |tbl| && |types| == |keys| && Wide(tbl, types)
    requires Rows(tbl, types, keys, py, n).Err?
    ensures Rows(tbl, types, keys, py, m) == Rows(tbl, types, keys, py, n)
    decreases m - n
  {
    if n < m {
      RowsErrSticky(tbl, types, keys, py, n + 1, m);
    }
  }

  /** The table text is the row texts one after another: the rows before n, then row n. */
  lemma RowsExtend(tbl: seq<seq<Value>>, types: seq<Value>, keys: seq<Value>, py: Python, n: nat)
    requires n < |tbl| && |types| == |keys| && Wide(tbl, types)
    requires Rows(tbl, types, keys, py, n + 1).Ok?
    ensures Rows(tbl, types, keys, py, n).Ok? && Row(tbl[n], n, types, keys, py).Ok?
    ensures Rows(tbl, types, keys, py, n + 1).value ==
              Rows(tbl, types, keys, py, n).value + Row(tbl[n], n, types, keys, py).value
  {
  }

  /** Formats the cells of one row into its "k = v" items. */
  method FormatItems(cells: seq<Value>, types: seq<Value>, keys: seq<Value>, py: Python) returns (r: Result<seq<string>, PyError>)
    requires |types| == |keys| <= |cells|
    ensures r == Items(cells, types, keys, py, |types|)
  {
    var item: seq<string> := [];
    for col := 0 to |types|
      invariant Items(cells, types, keys, py, col) == Ok(item)
    {
      if !Skip(types[col], keys[col]) {
        var cell := RenderCell(types[col], cells[col], py);
        match cell
        case Err(e) =>
          ItemsErrSticky(cells, types, keys, py, col + 1, |types|);
          return Err(e);
        case Ok(t) =>
          item := item + [ItemText(keys[col], t)];
      }
    }
    r := Ok(item);
  }

  /** Formats one row, numbered row from 0, into its line of the Lua table. */
  method FormatRow(cells: seq<Value>, row: nat, types: seq<Value>, keys: seq<Value>, py: Python) returns (r: Result<string, PyError>)
    requires |types| == |keys| <= |cells|
    ensures r == Row(cells, row, types, keys, py)
  {
    var items := FormatItems(cells, types, keys, py);
    if items.Err? {
      return Err(items.error);
    }
    var key := RowKey(cells, row, types, keys, py);
    if key.Err? {
      return Err(key.error);
    }
    r := Ok(RowText(key.value, items.value));
  }

  /** Formats every row of the data area into the body of the Lua table. */
  method ParseData(tbl: seq<seq<Value>>, types: seq<Value>, keys: seq<Value>, py: Python) returns (r: Result<string, PyError>)
    requires |types| == |keys| && Wide(tbl, types)
    ensures r == Rows(tbl, types, keys, py, |tbl|)
  {
    var result := "";
    for row := 0 to |tbl|
      invariant Rows(tbl, types, keys, py, row) == Ok(result)
    {
      var line := FormatRow(tbl[row], row, types, keys, py);
      if line.Err? {
        RowsErrSticky(tbl, types, keys, py, row + 1, |tbl|);
        return Err(line.error);
      }
      result := result + line.value;
    }
    r := Ok(result);
  }

  // ---------------------------------------------------------------- annotation

  /** A key the annotation lists: not None and not printing as the empty text. */
  predicate Present(key: Value)
  {
    key != Missing && |StrOf(key)| > 0
  }

  /** The type named in the annotation: int and float columns are Lua numbers. */
  function LuaType(ty: Value): string
  {
    if ty == Text("int") || ty == Text("float") then "number" else StrOf(ty)
  }

  function FieldLine(key: Value, ty: Value): string
  {
    "\t---@field " + StrOf(key) + " " + LuaType(ty) + "\n"
  }

  /** The field lines of the first n columns. */
  function Fields(types: seq<Value>, keys: seq<Value>, n: nat): seq<string>
    requires n <= |keys| <= |types|
  {
    if n == 0 then []
    else Fields(types, keys, n - 1) + (if Present(keys[n - 1]) then [FieldLine(keys[n - 1], types[n - 1])] else [])
  }

  function Concat(lines: seq<string>): string
  {
    if |lines| == 0 then "" else Concat(lines[..|lines| - 1]) + lines[|lines| - 1]
  }

  /** Column i adds its field line, if any, at the end. */
  lemma FieldsStep(types: seq<Value>, keys: seq<Value>, i: nat)
    requires i < |keys| <= |types|
    ensures Concat(Fields(types, keys, i + 1)) ==
              Concat(Fields(types, keys, i)) + (if Present(keys[i]) then FieldLine(keys[i], types[i]) else "")
  {
    var before := Fields(types, keys, i);
    if Present(keys[i]) {
      var line := FieldLine(keys[i], types[i]);
      assert Fields(types, keys, i + 1) == before + [line];
      assert (before + [line])[..|before|] == before;
    } else {
      assert Fields(types, keys, i + 1) == before;
    }
  }

  /** The field lines of the first n columns, as one text. */
  function FieldText(types: seq<Value>, keys: seq<Value>, n: nat): string
    requires n <= |keys| <= |types|
  {
    if n == 0 then "" else FieldText(types, keys, n - 1) + (if Present(keys[n - 1]) then FieldLine(keys[n - 1], types[n - 1]) else "")
  }

  /** The field text is the field lines one after another. */
  lemma {:induction false} FieldTextLines(types: seq<Value>, keys: seq<Value>, n: nat)
    requires n <= |keys| <= |types|
    ensures FieldText(types, keys, n) == Concat(Fields(types, keys, n))
  {
    if n > 0 {
      FieldTextLines(types, keys, n - 1);
      FieldsStep(types, keys, n - 1);
    }
  }

  /** The EmmyLua class annotation of the generated rows. */
  function Annotation(types: seq<Value>, keys: seq<Value>, config: string): string
    requires |keys| <= |types|
  {
    "\t---@class " + config + "\n" + FieldText(types, keys, |keys|)
  }

  /** The number of keys among the first n that the annotation lists. */
  function PresentCount(keys: seq<Value>, n: nat): nat
    requires n <= |keys|
  {
    if n == 0 then 0 else PresentCount(keys, n - 1) + (if Present(keys[n - 1]) then 1 else 0)
  }

  /** The annotation has one field line per present key, and every present key has its line. */
  lemma {:induction false} FieldsComplete(types: seq<Value>, keys: seq<Value>, n: nat)
    requires n <= |keys| <= |types|
    ensures |Fields(types, keys, n)| == PresentCount(keys, n)
    ensures forall i :: 0 <= i < n && Present(keys[i]) ==> FieldLine(keys[i], types[i]) in Fields(types, keys, n)
  {
    if n > 0 {
      FieldsComplete(types, keys, n - 1);
    }
  }

  /** Builds the annotation line by line; config is the configuration class name. */
  method ParseAnnotation(types: seq<Value>, keys: seq<Value>, config: string) returns (r: string)
    requires |keys| <= |types|
    ensures r == Annotation(types, keys, config)
  {
    var body := "";
    for i := 0 to |keys|
      invariant body == FieldText(types, keys, i)
    {
      if Present(keys[i]) {
        body := body + FieldLine(keys[i], types[i]);
      }
    }
    r := "\t---@class " + config + "\n" + body;
  }

  // ---------------------------------------------------------------- module text

  function ConfigName(title: string): string
  {
    title + "Config"
  }

  function ModuleName(title: string): string
  {
    "conf_" + Capitalize(title)
  }

  /** The first line of the module text, naming its file. */
  function FileLine(title: string): string
  {
    "-- Filename: " + ModuleName(title) + ".lua\n"
  }

  /** The last line of the module text, returning the module. */
  function ReturnLine(title: string): string
  {
    "return " + ModuleName(title)
  }

  /** Everything of the module text before the table rows. */
  function Preamble(title: string): string
  {
    FileLine(title) + Declarations(title)
  }

  /** The lines after the file line, up to the opening of the data table. */
  function Declarations(title: string): string
  {
    "-- methods: X.getitem(id)\n-- Function: no description.\n\n"
    + "---@type " + ConfigName(title) + "[]\n" + "local data = {\n"
  }

  /** Everything of the module text after the table rows. */
  function Postamble(title: string, annotation: string): string
  {
    Accessors(title, annotation) + ReturnLine(title)
  }

  /** The closing of the data table, the module table and its get and getall functions. */
  function Accessors(title: string, annotation: string): string
  {
    var m := ModuleName(title);
    "}\n\n"
    + "---@class " + m + "\n" + "local " + m + " = {}\n"
    + "---@return " + ConfigName(title) + "\n"
    + "function " + m + ".get(id)\n\tif not id or type(id) ~= 'number' then return nil end\n"
    + annotation + "\treturn data[id] end\n"
    + "function " + m + ".getall() return data end\n"
  }

  /** The generated module: its name and its text, or the first exception. */
  function LuaText(title: string, tbl: seq<seq<Value>>, types: seq<Value>, keys: seq<Value>, py: Python): Result<(string, string), PyError>
    requires |types| == |keys| && Wide(tbl, types)
  {
    match Rows(tbl, types, keys, py, |tbl|)
    case Err(e) => Err(e)
    case Ok(data) => Ok((ModuleName(title), ModuleText(title, data, Annotation(types, keys, ConfigName(title)))))
  }

  /** The module text around the table rows data, with the field annotation lines annotation. */
  function ModuleText(title: string, data: string, annotation: string): string
  {
    Preamble(title) + data + Postamble(title, annotation)
  }

  /** A five-part text starts with its first part, ends with its last, and holds its middle part at a fixed place. */
  lemma Framed(head: string, rest: string, data: string, body: string, tail: string)
    ensures var t := (head + rest) + data + (body + tail);
            var p := |head + rest|;
            |head| <= |t| && t[..|head|] == head &&
            |tail| <= |t| && t[|t| - |tail|..] == tail &&
            p + |data| <= |t| && t[p..p + |data|] == data
  {
    var t := (head + rest) + data + (body + tail);
    assert t == head + (rest + data + body + tail);
    assert t == (head + rest + data + body) + tail;
  }

  /** The module text starts with the line naming its file after the module. */
  lemma ModuleStartsWithFileLine(title: string, data: string, annotation: string)
    ensures var content := ModuleText(title, data, annotation);
            |FileLine(title)| <= |content| && content[..|FileLine(title)|] == FileLine(title)
  {
    Framed(FileLine(title), Declarations(title), data, Accessors(title, annotation), ReturnLine(title));
  }

  /** The module text ends by returning the module. */
  lemma ModuleEndsWithReturn(title: string, data: string, annotation: string)
    ensures var content := ModuleText(title, data, annotation);
            |ReturnLine(title)| <= |content| && content[|content| - |ReturnLine(title)|..] == ReturnLine(title)
  {
    Framed(FileLine(title), Declarations(title), data, Accessors(title, annotation), ReturnLine(title));
  }

  /** The module text holds the table rows unchanged at a place that depends on the title alone. */
  lemma ModuleHoldsRows(title: string, data: string, annotation: string)
    ensures var content := ModuleText(title, data, annotation);
            var p := |Preamble(title)|;
            p + |data| <= |content| && content[p..p + |data|] == data
  {
    Framed(FileLine(title), Declarations(title), data, Accessors(title, annotation), ReturnLine(title));
  }

  /** Assembles the Lua module for the sheet titled title. */
  method GetLuaText(title: string, tbl: seq<seq<Value>>, types: seq<Value>, keys: seq<Value>, py: Python)
    returns (r: Result<(string, string), PyError>)
    requires |types| == |keys| && Wide(tbl, types)
    ensures r == LuaText(title, tbl, types, keys, py)
  {
    var config := ConfigName(title);
    var m := ModuleName(title);
    var data := ParseData(tbl, types, keys, py);
    match data
    case Err(e) =>
      r := Err(e);
    case Ok(rows) =>
      var annotation := ParseAnnotation(types, keys, config);
      r := Ok((m, ModuleText(title, rows, annotation)));
  }
}
