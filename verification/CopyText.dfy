/** The COPY text-format payload of `Txn.CopyFromText`: the writer, step by step as the
    program runs it, and a reader written from PostgreSQL's COPY documentation. */
module CopyText {
  import opened Text
  import Buffers

  /** One encoded column value; None is SQL NULL. */
  type Field = Option<string>

  const BACKSPACE := '\U{0008}'
  const FORM_FEED := '\U{000C}'
  const VERTICAL_TAB := '\U{000B}'

  // ---------- the writer ----------

  /** The replacement table; "" for a byte that is copied as it is. */
  function EscapeOf(c: char): string {
    if c == BACKSPACE then "\\b"
    else if c == FORM_FEED then "\\f"
    else if c == '\n' then "\\n"
    else if c == '\r' then "\\r"
    else if c == '\t' then "\\t"
    else if c == VERTICAL_TAB then "\\v"
    else if c == '\\' then "\\\\"
    else ""
  }

  /** Byte-by-byte escaping: what the run-flushing loop has to equal. */
  function Escaped(b: string): string {
    if b == "" then ""
    else (if EscapeOf(b[0]) != "" then EscapeOf(b[0]) else [b[0]]) + Escaped(b[1..])
  }

  function FieldText(f: Field): string {
    match f
    case None => "\\N"
    case Some(b) => Escaped(b)
  }

  function RowText(row: seq<Field>): string {
    if row == [] then ""
    else if |row| == 1 then FieldText(row[0])
    else FieldText(row[0]) + "\t" + RowText(row[1..])
  }

  function Payload(table: seq<seq<Field>>): string {
    if table == [] then "" else RowText(table[0]) + "\n" + Payload(table[1..])
  }

  lemma {:induction false} EscapedAppend(a: string, b: string)
    ensures Escaped(a + b) == Escaped(a) + Escaped(b)
  {
    if a == "" {
      assert a + b == b;
    } else {
      assert (a + b)[1..] == a[1..] + b;
      EscapedAppend(a[1..], b);
    }
  }

  lemma {:induction false} EscapedPlain(b: string)
    requires forall c :: c in b ==> EscapeOf(c) == ""
    ensures Escaped(b) == b
  {
    if b == "" {
    } else {
      EscapedPlain(b[1..]);
      assert b == [b[0]] + b[1..];
    }
  }

  /** A run without special bytes may be written as it is. */
  lemma EscapedRun(done: string, run: string)
    requires forall c :: c in run ==> EscapeOf(c) == ""
    ensures Escaped(done + run) == Escaped(done) + run
  {
    EscapedPlain(run);
    EscapedAppend(done, run);
  }

  /** The bytes that must not stand in a field as they are. */
  const SPECIAL := {BACKSPACE, FORM_FEED, '\n', '\r', '\t', VERTICAL_TAB, '\\'}

  function SpecialCount(b: string): nat {
    if b == "" then 0 else (if b[0] in SPECIAL then 1 else 0) + SpecialCount(b[1..])
  }

  /** What stands for a byte. */
  function Written(c: char): string {
    if EscapeOf(c) != "" then EscapeOf(c) else [c]
  }

  lemma WrittenSpecial(c: char)
    ensures |Written(c)| == (if c in SPECIAL then 2 else 1) && (c !in SPECIAL ==> Written(c) == [c])
    ensures forall x :: x in Written(c) && x in SPECIAL ==> x == '\\'
  {
  }

  /** Every special byte is written as two, every other one as itself; of the special ones only
      backslashes are left. */
  lemma {:induction false} EscapesSpecial(b: string)
    ensures |Escaped(b)| == |b| + SpecialCount(b)
    ensures forall c :: c in Escaped(b) && c in SPECIAL ==> c == '\\'
  {
    if b == "" {
    } else {
      EscapesSpecial(b[1..]);
      WrittenSpecial(b[0]);
      assert Escaped(b) == Written(b[0]) + Escaped(b[1..]);
    }
  }

  lemma EscapedSnoc(b: string, i: nat)
    requires i < |b|
    ensures Escaped(b[..i + 1]) == Escaped(b[..i]) + if EscapeOf(b[i]) != "" then EscapeOf(b[i]) else [b[i]]
  {
    EscapedAppend(b[..i], [b[i]]);
    assert b[..i] + [b[i]] == b[..i + 1];
    assert [b[i]][1..] == "";
  }

  /** What is written up to `start`, and the run behind it, make up the escape of the first `i` bytes. */
  predicate RunSince(b: string, out: string, start: nat, i: nat)
    requires start <= i <= |b|
  {
    out + b[start..i] == Escaped(b[..i])
  }

  /** A plain byte makes the run longer. */
  lemma RunGrows(b: string, out: string, start: nat, i: nat)
    requires start <= i < |b| && RunSince(b, out, start, i) && EscapeOf(b[i]) == ""
    ensures RunSince(b, out, start, i + 1)
  {
    EscapedSnoc(b, i);
    Assoc(out, b[start..i], [b[i]]);
    assert b[start..i] + [b[i]] == b[start..i + 1];
  }

  /** A special byte ends the run, and the next one starts behind it. */
  lemma RunEnds(b: string, out: string, start: nat, i: nat)
    requires start <= i < |b| && RunSince(b, out, start, i) && EscapeOf(b[i]) != ""
    ensures RunSince(b, out + b[start..i] + EscapeOf(b[i]), i + 1, i + 1)
  {
    EscapedSnoc(b, i);
    assert b[i + 1..i + 1] == "";
  }

  /** The run since `start`, if there is any, and what stands for the byte behind it. */
  method WriteRun(buf: Buffers.Buffer, b: string, start: nat, i: nat, esc: string)
    requires start <= i <= |b|
    modifies buf
    ensures buf.data == old(buf.data) + b[start..i] + esc
  {
    if i > start {
      buf.Write(b[start..i]);
    }
    buf.Write(esc);
  }

  lemma Appended(before: string, out: string, run: string, esc: string)
    ensures before + out + run + esc == before + (out + run + esc)
  {
  }

  method WriteCopyTextEscaped(buf: Buffers.Buffer, b: string)
    modifies buf
    ensures buf.data == old(buf.data) + Escaped(b)
  {
    var start := 0;
    ghost var before, out := buf.data, "";
    assert b[..0] == "" && b[0..0] == "";
    for i := 0 to |b|
      invariant 0 <= start <= i && RunSince(b, out, start, i)
      invariant buf.data == before + out
    {
      var esc := EscapeOf(b[i]);
      if esc != "" {
        WriteRun(buf, b, start, i, esc);
        RunEnds(b, out, start, i);
        Appended(before, out, b[start..i], esc);
        out := out + b[start..i] + esc;
        start := i + 1;
      } else {
        RunGrows(b, out, start, i);
      }
    }
    assert b[..|b|] == b && b[start..|b|] == b[start..];
    Assoc(before, out, b[start..]);
    if start < |b| {
      buf.Write(b[start..]);
    }
  }

  datatype CopyError =
    | FieldCount(got: nat, want: nat)
    | RowWidth(got: nat, want: nat)
    | Encoding(column: string, cause: string)

  /** The type map's text encoder, by column type: an error, NULL, or the value's text. */
  type Encoder<!V> = (int, V) -> Result<Field, string>

  function EncodeField<V>(encode: Encoder<V>, oid: int, v: Option<V>): Result<Field, string> {
    match v
    case None => Ok(None)
    case Some(x) => encode(oid, x)
  }

  /** The encoded fields of one row from column `i` on, or the first encoding error. */
  function EncodeRow<V>(encode: Encoder<V>, columns: seq<string>, oids: seq<int>, row: seq<Option<V>>, i: nat)
    : (r: Result<seq<Field>, CopyError>)
    requires i <= |row| == |columns| == |oids|
    ensures r.Ok? ==> |r.value| == |row| - i
    decreases |row| - i
  {
    if i == |row| then Ok([])
    else
      match EncodeField(encode, oids[i], row[i])
      case Err(e) => Err(Encoding(columns[i], e))
      case Ok(f) =>
        match EncodeRow(encode, columns, oids, row, i + 1)
        case Err(e) => Err(e)
        case Ok(rest) => Ok([f] + rest)
  }

  /** The encoded fields of all rows, or the first error in row order. */
  function EncodeTable<V>(encode: Encoder<V>, columns: seq<string>, oids: seq<int>, rows: seq<seq<Option<V>>>)
    : (r: Result<seq<seq<Field>>, CopyError>)
    requires |columns| == |oids|
    ensures r.Ok? ==> |r.value| == |rows| && forall row :: row in r.value ==> |row| == |columns|
  {
    if rows == [] then Ok([])
    else if |rows[0]| != |columns| then Err(RowWidth(|rows[0]|, |columns|))
    else
      match EncodeRow(encode, columns, oids, rows[0], 0)
      case Err(e) => Err(e)
      case Ok(first) =>
        match EncodeTable(encode, columns, oids, rows[1..])
        case Err(e) => Err(e)
        case Ok(rest) => Ok([first] + rest)
  }

  // ---------- which column's type encodes which value ----------

  /** The field is what the encoder of its column's type makes of the value, or NULL for NULL. */
  predicate EncodedAs<V>(encode: Encoder<V>, oid: int, v: Option<V>, f: Field) {
    if v == None then f == None else encode(oid, v.value) == Ok(f)
  }

  /** Each value of the row under its own column, from column `from` up to column `to`. */
  predicate RowEncodes<V>(encode: Encoder<V>, oids: seq<int>, row: seq<Option<V>>, from: nat, to: nat) {
    from <= to <= |row| && to <= |oids|
    && forall j :: from <= j < to && row[j].Some? ==> encode(oids[j], row[j].value).Ok?
  }

  /** The encoder of column `j` refuses its value, for that cause, and none before it does. */
  predicate FailsAt<V>(encode: Encoder<V>, oids: seq<int>, row: seq<Option<V>>, from: nat, j: nat, cause: string) {
    RowEncodes(encode, oids, row, from, j) && j < |row| && j < |oids|
    && row[j].Some? && encode(oids[j], row[j].value) == Err(cause)
  }

  lemma {:induction false} RowFields<V>(encode: Encoder<V>, columns: seq<string>, oids: seq<int>,
                                        row: seq<Option<V>>, i: nat)
    requires i <= |row| == |columns| == |oids|
    ensures match EncodeRow(encode, columns, oids, row, i)
            case Ok(fields) =>
              RowEncodes(encode, oids, row, i, |row|)
              && forall j :: i <= j < |row| ==> EncodedAs(encode, oids[j], row[j], fields[j - i])
            case Err(e) =>
              exists j: nat, cause :: FailsAt(encode, oids, row, i, j, cause) && e == Encoding(columns[j], cause)
    decreases |row| - i
  {
    if i == |row| {
    } else {
      RowFields(encode, columns, oids, row, i + 1);
      var here := EncodeField(encode, oids[i], row[i]);
      if here.Err? {
        assert FailsAt(encode, oids, row, i, i, here.error);
      } else {
        var rest := EncodeRow(encode, columns, oids, row, i + 1);
        if rest.Err? {
          var j: nat, cause :| FailsAt(encode, oids, row, i + 1, j, cause) && rest.error == Encoding(columns[j], cause);
          assert FailsAt(encode, oids, row, i, j, cause);
        }
      }
    }
  }

  /** Every row before row `i` has the right width and encodes. */
  predicate RowsEncode<V>(encode: Encoder<V>, oids: seq<int>, rows: seq<seq<Option<V>>>, i: nat) {
    i <= |rows| && forall k :: 0 <= k < i ==> |rows[k]| == |oids| && RowEncodes(encode, oids, rows[k], 0, |oids|)
  }

  /** Row `i` is the first that fails, and this is its error: its width, or the first of its values
      that its own column's encoder refuses, with that column's name. */
  ghost predicate FailsInRow<V>(encode: Encoder<V>, columns: seq<string>, oids: seq<int>, rows: seq<seq<Option<V>>>,
                                i: nat, e: CopyError)
    requires |columns| == |oids|
  {
    RowsEncode(encode, oids, rows, i) && i < |rows|
    && if |rows[i]| != |columns| then e == RowWidth(|rows[i]|, |columns|)
       else exists j: nat, cause :: FailsAt(encode, oids, rows[i], 0, j, cause) && e == Encoding(columns[j], cause)
  }

  ghost predicate FailsFirst<V>(encode: Encoder<V>, columns: seq<string>, oids: seq<int>, rows: seq<seq<Option<V>>>,
                                e: CopyError)
    requires |columns| == |oids|
  {
    exists i: nat :: FailsInRow(encode, columns, oids, rows, i, e)
  }

  lemma FailsLater<V>(encode: Encoder<V>, columns: seq<string>, oids: seq<int>, rows: seq<seq<Option<V>>>,
                      e: CopyError)
    requires |columns| == |oids| && rows != [] && |rows[0]| == |oids| && RowEncodes(encode, oids, rows[0], 0, |oids|)
    requires FailsFirst(encode, columns, oids, rows[1..], e)
    ensures FailsFirst(encode, columns, oids, rows, e)
  {
    var i: nat :| FailsInRow(encode, columns, oids, rows[1..], i, e);
    assert rows[i + 1] == rows[1..][i];
    forall k | 0 <= k < i + 1 ensures |rows[k]| == |oids| && RowEncodes(encode, oids, rows[k], 0, |oids|) {
      if k > 0 {
        assert rows[k] == rows[1..][k - 1];
      }
    }
    assert FailsInRow(encode, columns, oids, rows, i + 1, e);
  }

  /** Every field of the table is the value of its own place under its own column's type. */
  predicate TableEncodes<V>(encode: Encoder<V>, oids: seq<int>, rows: seq<seq<Option<V>>>, table: seq<seq<Field>>) {
    |table| == |rows|
    && forall i :: 0 <= i < |rows| ==>
         |table[i]| == |rows[i]| == |oids|
         && forall j :: 0 <= j < |oids| ==> EncodedAs(encode, oids[j], rows[i][j], table[i][j])
  }

  lemma TableEncodesCons<V>(encode: Encoder<V>, oids: seq<int>, rows: seq<seq<Option<V>>>,
                            first: seq<Field>, rest: seq<seq<Field>>)
    requires rows != [] && |first| == |rows[0]| == |oids| && TableEncodes(encode, oids, rows[1..], rest)
    requires forall j :: 0 <= j < |oids| ==> EncodedAs(encode, oids[j], rows[0][j], first[j])
    ensures TableEncodes(encode, oids, rows, [first] + rest)
  {
    forall i | 0 < i < |rows| ensures ([first] + rest)[i] == rest[i - 1] && rows[i] == rows[1..][i - 1] {
    }
  }

  lemma WidthFails<V>(encode: Encoder<V>, columns: seq<string>, oids: seq<int>, rows: seq<seq<Option<V>>>)
    requires |columns| == |oids| && rows != [] && |rows[0]| != |columns|
    ensures EncodeTable(encode, columns, oids, rows).Err?
    ensures FailsFirst(encode, columns, oids, rows, EncodeTable(encode, columns, oids, rows).error)
  {
    assert FailsInRow(encode, columns, oids, rows, 0, EncodeTable(encode, columns, oids, rows).error);
  }

  lemma FirstRowFails<V>(encode: Encoder<V>, columns: seq<string>, oids: seq<int>, rows: seq<seq<Option<V>>>)
    requires |columns| == |oids| && rows != [] && |rows[0]| == |columns|
    requires EncodeRow(encode, columns, oids, rows[0], 0).Err?
    ensures EncodeTable(encode, columns, oids, rows).Err?
    ensures FailsFirst(encode, columns, oids, rows, EncodeTable(encode, columns, oids, rows).error)
  {
    RowFields(encode, columns, oids, rows[0], 0);
    assert FailsInRow(encode, columns, oids, rows, 0, EncodeTable(encode, columns, oids, rows).error);
  }

  /** The table has every value under its own column's type, or the error is that of the first place
      in row order that fails. */
  lemma {:induction false} TableFields<V>(encode: Encoder<V>, columns: seq<string>, oids: seq<int>,
                                          rows: seq<seq<Option<V>>>)
    requires |columns| == |oids|
    ensures match EncodeTable(encode, columns, oids, rows)
            case Ok(table) => TableEncodes(encode, oids, rows, table)
            case Err(e) => FailsFirst(encode, columns, oids, rows, e)
  {
    if rows == [] {
    } else if |rows[0]| != |columns| {
      WidthFails(encode, columns, oids, rows);
    } else if EncodeRow(encode, columns, oids, rows[0], 0).Err? {
      FirstRowFails(encode, columns, oids, rows);
    } else {
      RowFields(encode, columns, oids, rows[0], 0);
      TableFields(encode, columns, oids, rows[1..]);
      var rest := EncodeTable(encode, columns, oids, rows[1..]);
      if rest.Err? {
        FailsLater(encode, columns, oids, rows, rest.error);
      } else {
        TableEncodesCons(encode, oids, rows, EncodeRow(encode, columns, oids, rows[0], 0).value, rest.value);
      }
    }
  }

  /** With an encoder that refuses text for type 23, `(1, "x")` goes through for the types 23 and 25. */
  lemma OwnTypesHere(encode: Encoder<string>)
    requires encode(23, "1") == Ok(Some("1")) && encode(25, "x") == Ok(Some("x")) && encode(23, "x").Err?
    ensures EncodeTable(encode, ["id", "name"], [23, 25], [[Some("1"), Some("x")]]) == Ok([[Some("1"), Some("x")]])
  {
    var good, result := [Some("1"), Some("x")], EncodeTable(encode, ["id", "name"], [23, 25], [[Some("1"), Some("x")]]);
    TableFields(encode, ["id", "name"], [23, 25], [good]);
    assert good[0] == Some("1") && good[1] == Some("x");
    assert result.Ok?;
    var table := result.value;
    assert EncodedAs(encode, 23, good[0], table[0][0]) && EncodedAs(encode, 25, good[1], table[0][1]);
    assert table[0] == good && table == [table[0]];
  }

  method WriteCopyTextValue<V>(buf: Buffers.Buffer, encode: Encoder<V>, oid: int, v: Option<V>)
    returns (err: Option<string>)
    modifies buf
    ensures match EncodeField(encode, oid, v)
            case Ok(f) => err == None && buf.data == old(buf.data) + FieldText(f)
            case Err(e) => err == Some(e) && buf.data == old(buf.data)
  {
    if v == None {
      buf.Write("\\N");
      return None;
    }
    var encoded := encode(oid, v.value);
    if encoded.Err? {
      return Some(encoded.error);
    }
    if encoded.value == None {
      buf.Write("\\N");
      return None;
    }
    WriteCopyTextEscaped(buf, encoded.value.value);
    return None;
  }

  /** One row of the payload loop, up to its newline. */
  method WriteRow<V>(buf: Buffers.Buffer, encode: Encoder<V>, columns: seq<string>, oids: seq<int>, row: seq<Option<V>>)
    returns (err: Option<CopyError>)
    requires |row| == |columns| == |oids|
    modifies buf
    ensures match EncodeRow(encode, columns, oids, row, 0)
            case Ok(fields) => err == None && buf.data == old(buf.data) + RowText(fields)
            case Err(e) => err == Some(e)
  {
    ghost var all := EncodeRow(encode, columns, oids, row, 0);
    ghost var before, out, done: seq<Field> := buf.data, "", [];
    Assoc<Field>([], [], if all.Ok? then all.value else []);
    for i := 0 to |row|
      invariant |done| == i
      invariant buf.data == before + out && out == RowText(done)
      invariant Continues(all, done, EncodeRow(encode, columns, oids, row, i))
    {
      if i > 0 {
        buf.Write("\t");
        Assoc(before, out, "\t");
        out := out + "\t";
      }
      var e := WriteCopyTextValue(buf, encode, oids[i], row[i]);
      if e != None {
        return Some(Encoding(columns[i], e.value));
      }
      ghost var f := EncodeField(encode, oids[i], row[i]).value;
      Assoc(before, out, FieldText(f));
      RowTextSnoc(done, f);
      ghost var rest := EncodeRow(encode, columns, oids, row, i + 1);
      Assoc(done, [f], if rest.Ok? then rest.value else []);
      out, done := out + FieldText(f), done + [f];
    }
    assert all.value == done + [] == done;
    return None;
  }

  /** `all` is what has been done followed by what is still to come, or the same error. */
  ghost predicate Continues<T>(all: Result<seq<T>, CopyError>, done: seq<T>, rest: Result<seq<T>, CopyError>) {
    if rest.Ok? then all.Ok? && all.value == done + rest.value else all == rest
  }

  /** Row text grows at its end, which is how the loop builds it. */
  lemma {:induction false} RowTextSnoc(row: seq<Field>, f: Field)
    ensures RowText(row + [f]) == RowText(row) + (if row == [] then "" else "\t") + FieldText(f)
  {
    if row == [] {
    } else {
      RowTextSnoc(row[1..], f);
      assert (row + [f])[1..] == row[1..] + [f] && (row + [f])[0] == row[0];
      var first, rest := FieldText(row[0]) + "\t", RowText(row[1..]);
      Assoc(first, rest, "\t");
      Assoc(first, rest + "\t", FieldText(f));
    }
  }

  lemma Regroup(first: string, rest: string, line: string)
    ensures first + (rest + line + "\n") == (first + rest) + line + "\n"
  {
  }

  lemma {:induction false} PayloadSnoc(table: seq<seq<Field>>, row: seq<Field>)
    ensures Payload(table + [row]) == Payload(table) + RowText(row) + "\n"
  {
    if table == [] {
    } else {
      PayloadSnoc(table[1..], row);
      PayloadHead(table, row);
      Regroup(RowText(table[0]) + "\n", Payload(table[1..]), RowText(row));
    }
  }

  lemma PayloadHead(table: seq<seq<Field>>, row: seq<Field>)
    requires table != []
    ensures Payload(table + [row]) == RowText(table[0]) + "\n" + Payload(table[1..] + [row])
  {
    assert (table + [row])[1..] == table[1..] + [row];
  }

  /** One more row that is as wide as it should be. */
  lemma ContinuesRow<V>(encode: Encoder<V>, columns: seq<string>, oids: seq<int>, rows: seq<seq<Option<V>>>, i: nat,
                        all: Result<seq<seq<Field>>, CopyError>, done: seq<seq<Field>>)
    requires |oids| == |columns| && i < |rows| && |rows[i]| == |columns|
    requires Continues(all, done, EncodeTable(encode, columns, oids, rows[i..]))
    ensures match EncodeRow(encode, columns, oids, rows[i], 0)
            case Err(e) => all == Err(e)
            case Ok(fields) => Continues(all, done + [fields], EncodeTable(encode, columns, oids, rows[i + 1..]))
  {
    assert rows[i..][1..] == rows[i + 1..];
    var fields, rest := EncodeRow(encode, columns, oids, rows[i], 0), EncodeTable(encode, columns, oids, rows[i + 1..]);
    if fields.Ok? && rest.Ok? {
      Assoc(done, [fields.value], rest.value);
    }
  }

  /** The rows up to `i` are written, and the others still to come. */
  ghost predicate WrittenTo<V>(encode: Encoder<V>, columns: seq<string>, oids: seq<int>, rows: seq<seq<Option<V>>>,
                               i: nat, data: string, done: seq<seq<Field>>)
    requires |oids| == |columns| && i <= |rows|
  {
    data == Payload(done)
    && Continues(EncodeTable(encode, columns, oids, rows), done, EncodeTable(encode, columns, oids, rows[i..]))
  }

  lemma WrittenNext<V>(encode: Encoder<V>, columns: seq<string>, oids: seq<int>, rows: seq<seq<Option<V>>>,
                       i: nat, data: string, done: seq<seq<Field>>)
    requires |oids| == |columns| && i < |rows| && WrittenTo(encode, columns, oids, rows, i, data, done)
    ensures |rows[i]| != |columns| ==>
              EncodeTable(encode, columns, oids, rows) == Err(RowWidth(|rows[i]|, |columns|))
    ensures |rows[i]| == |columns| ==>
              match EncodeRow(encode, columns, oids, rows[i], 0)
              case Err(e) => EncodeTable(encode, columns, oids, rows) == Err(e)
              case Ok(fields) =>
                WrittenTo(encode, columns, oids, rows, i + 1, data + RowText(fields) + "\n", done + [fields])
  {
    if |rows[i]| == |columns| {
      ContinuesRow(encode, columns, oids, rows, i, EncodeTable(encode, columns, oids, rows), done);
      if EncodeRow(encode, columns, oids, rows[i], 0).Ok? {
        PayloadSnoc(done, EncodeRow(encode, columns, oids, rows[i], 0).value);
      }
    }
  }

  lemma WrittenAll<V>(encode: Encoder<V>, columns: seq<string>, oids: seq<int>, rows: seq<seq<Option<V>>>,
                      data: string, done: seq<seq<Field>>)
    requires |oids| == |columns| && WrittenTo(encode, columns, oids, rows, |rows|, data, done)
    ensures EncodeTable(encode, columns, oids, rows) == Ok(done) && data == Payload(done)
  {
    assert done + [] == done;
  }

  /** The loop over the rows, from an empty buffer on. */
  method WriteRows<V>(buf: Buffers.Buffer, encode: Encoder<V>, columns: seq<string>, oids: seq<int>,
                      rows: seq<seq<Option<V>>>) returns (err: Option<CopyError>)
    requires |oids| == |columns| && buf.data == ""
    modifies buf
    ensures match EncodeTable(encode, columns, oids, rows)
            case Ok(table) => err == None && buf.data == Payload(table)
            case Err(e) => err == Some(e)
  {
    ghost var done: seq<seq<Field>> := [];
    assert rows[0..] == rows;
    for i := 0 to |rows|
      invariant WrittenTo(encode, columns, oids, rows, i, buf.data, done)
    {
      var row := rows[i];
      WrittenNext(encode, columns, oids, rows, i, buf.data, done);
      if |row| != |columns| {
        return Some(RowWidth(|row|, |columns|));
      }
      var e := WriteRow(buf, encode, columns, oids, row);
      if e != None {
        return e;
      }
      buf.Write("\n");
      done := done + [EncodeRow(encode, columns, oids, row, 0).value];
    }
    WrittenAll(encode, columns, oids, rows, buf.data, done);
    return None;
  }

  /** The payload `CopyFromText` sends once the target's column types are known: nothing for
      no rows, an error for a width mismatch or a failed encoding, the text otherwise. */
  method CopyFromTextPayload<V>(encode: Encoder<V>, columns: seq<string>, oids: seq<int>, rows: seq<seq<Option<V>>>)
    returns (r: Result<Option<string>, CopyError>)
    ensures rows == [] ==> r == Ok(None)
    ensures rows != [] && |oids| != |columns| ==> r == Err(FieldCount(|oids|, |columns|))
    ensures rows != [] && |oids| == |columns| ==>
              match EncodeTable(encode, columns, oids, rows)
              case Ok(table) =>
                r == Ok(Some(Payload(table))) && (columns != [] ==> ReadCopy(r.value.value) == table)
              case Err(e) => r == Err(e)
  {
    if |rows| == 0 {
      return Ok(None);
    }
    if |oids| != |columns| {
      return Err(FieldCount(|oids|, |columns|));
    }
    var buf := new Buffers.Buffer();
    var err := WriteRows(buf, encode, columns, oids, rows);
    if err != None {
      return Err(err.value);
    }
    RoundTrip(EncodeTable(encode, columns, oids, rows).value);
    return Ok(Some(buf.data));
  }

  // ---------- the reader ("Text Format" section of PostgreSQL's COPY page) ----------

  /** The first `delim` that no backslash quotes, or the end of `s`. */
  function FindDelim(s: string, delim: char): (k: nat)
    ensures k <= |s|
    ensures k < |s| ==> s[k] == delim
  {
    if s == "" then 0
    else if s[0] == '\\' && |s| >= 2 then 2 + FindDelim(s[2..], delim)
    else if s[0] == delim then 0
    else 1 + FindDelim(s[1..], delim)
  }

  function Cells(line: string): seq<string>
    decreases |line|
  {
    var k := FindDelim(line, '\t');
    if k == |line| then [line] else [line[..k]] + Cells(line[k + 1..])
  }

  predicate IsDigitIn(c: char, base: nat) {
    HexValue(c).Some? && HexValue(c).value < base
  }

  /** How many leading digits of `s` belong to a numeric escape of at most `limit` digits. */
  function DigitRun(s: string, base: nat, limit: nat): (n: nat)
    ensures n <= |s| && n <= limit
  {
    if limit == 0 || s == "" || !IsDigitIn(s[0], base) then 0 else 1 + DigitRun(s[1..], base, limit - 1)
  }

  function Numeral(s: string, base: nat, acc: nat): nat {
    if s == "" then acc
    else Numeral(s[1..], base, acc * base + (match HexValue(s[0]) case Some(d) => d case None => 0))
  }

  /** The backslash sequences of the documentation's table; any other quoted byte stands for itself. */
  function Unescape(s: string): string
    decreases |s|
  {
    if s == "" then ""
    else if s[0] != '\\' || |s| == 1 then [s[0]] + Unescape(s[1..])
    else
      var c := s[1];
      var octal := DigitRun(s[1..], 8, 3);
      var hex := DigitRun(s[2..], 16, 2);
      if c == 'b' then [BACKSPACE] + Unescape(s[2..])
      else if c == 'f' then [FORM_FEED] + Unescape(s[2..])
      else if c == 'n' then "\n" + Unescape(s[2..])
      else if c == 'r' then "\r" + Unescape(s[2..])
      else if c == 't' then "\t" + Unescape(s[2..])
      else if c == 'v' then [VERTICAL_TAB] + Unescape(s[2..])
      else if octal > 0 then
        [(Numeral(s[1..1 + octal], 8, 0) % 256) as char] + Unescape(s[1 + octal..])
      else if c == 'x' && hex > 0 then
        [(Numeral(s[2..2 + hex], 16, 0) % 256) as char] + Unescape(s[2 + hex..])
      else [c] + Unescape(s[2..])
  }

  /** NULL is recognised on the cell as it stands, before any backslash is taken away. */
  function ReadField(cell: string): Field {
    if cell == "\\N" then None else Some(Unescape(cell))
  }

  function ReadRow(line: string): seq<Field> {
    ReadCells(Cells(line))
  }

  function ReadCells(cells: seq<string>): seq<Field> {
    if cells == [] then [] else [ReadField(cells[0])] + ReadCells(cells[1..])
  }

  /** All rows up to the end of the data or the end-of-data line. */
  function ReadCopy(s: string): seq<seq<Field>>
    decreases |s|
  {
    if s == "" then []
    else
      var k := FindDelim(s, '\n');
      if s[..k] == "\\." then []
      else [ReadRow(s[..k])] + (if k == |s| then [] else ReadCopy(s[k + 1..]))
  }

  // ---------- the round trip ----------

  /** Every `delim` in `s` is quoted, and no backslash is left open at the end. */
  predicate Quoted(s: string, delim: char) {
    s == ""
    || (s[0] == '\\' && |s| >= 2 && Quoted(s[2..], delim))
    || (s[0] != '\\' && s[0] != delim && Quoted(s[1..], delim))
  }

  lemma {:induction false} QuotedAppend(a: string, b: string, delim: char)
    requires Quoted(a, delim) && Quoted(b, delim)
    ensures Quoted(a + b, delim)
    decreases |a|
  {
    if a == "" {
      assert a + b == b;
    } else if a[0] == '\\' {
      QuotedAppend(a[2..], b, delim);
      assert (a + b)[2..] == a[2..] + b;
    } else {
      QuotedAppend(a[1..], b, delim);
      assert (a + b)[1..] == a[1..] + b;
    }
  }

  lemma {:induction false} QuotedIsSkipped(a: string, b: string, delim: char)
    requires Quoted(a, delim)
    ensures FindDelim(a + [delim] + b, delim) == FindDelim(a, delim) == |a| || delim == '\\'
    decreases |a|
  {
    var s := a + [delim] + b;
    if a == "" {
    } else if a[0] == '\\' {
      assert s[2..] == a[2..] + [delim] + b;
      QuotedIsSkipped(a[2..], b, delim);
    } else {
      assert s[1..] == a[1..] + [delim] + b;
      QuotedIsSkipped(a[1..], b, delim);
    }
  }

  lemma {:induction false} EscapedQuoted(b: string, delim: char)
    requires delim == '\t' || delim == '\n'
    ensures Quoted(Escaped(b), delim)
  {
    if b == "" {
    } else {
      EscapedQuoted(b[1..], delim);
      var head := if EscapeOf(b[0]) != "" then EscapeOf(b[0]) else [b[0]];
      assert Quoted(head[|head|..], delim);
      QuotedAppend(head, Escaped(b[1..]), delim);
    }
  }

  lemma FieldTextQuoted(f: Field, delim: char)
    requires delim == '\t' || delim == '\n'
    ensures Quoted(FieldText(f), delim)
  {
    match f
    case None =>
      assert "\\N"[2..] == "";
    case Some(b) => EscapedQuoted(b, delim);
  }

  lemma {:induction false} RowTextQuoted(row: seq<Field>)
    ensures Quoted(RowText(row), '\n')
  {
    if row == [] {
    } else {
      FieldTextQuoted(row[0], '\n');
      if |row| > 1 {
        RowTextQuoted(row[1..]);
        assert Quoted("\t"[1..], '\n');
        QuotedAppend("\t", RowText(row[1..]), '\n');
        QuotedAppend(FieldText(row[0]), "\t" + RowText(row[1..]), '\n');
        Assoc(FieldText(row[0]), "\t", RowText(row[1..]));
      }
    }
  }

  /** One escape sequence, or one plain byte, gives its byte back. */
  lemma {:induction false} UnescapeHead(c: char, rest: string)
    ensures EscapeOf(c) != "" ==> Unescape(EscapeOf(c) + rest) == [c] + Unescape(rest)
    ensures EscapeOf(c) == "" ==> Unescape([c] + rest) == [c] + Unescape(rest)
  {
    var esc := EscapeOf(c);
    if esc != "" {
      var s := esc + rest;
      assert s[0] == '\\' && s[1] == esc[1] && s[2..] == rest;
    } else {
      var s := [c] + rest;
      assert s[0] == c && s[1..] == rest;
    }
  }

  lemma UnescapeFirst(b: string)
    requires b != ""
    ensures Unescape(Escaped(b)) == [b[0]] + Unescape(Escaped(b[1..]))
  {
    UnescapeHead(b[0], Escaped(b[1..]));
  }

  lemma {:induction false} UnescapeEscaped(b: string)
    ensures Unescape(Escaped(b)) == b
  {
    if b == "" {
    } else {
      UnescapeFirst(b);
      UnescapeEscaped(b[1..]);
      assert b == [b[0]] + b[1..];
    }
  }

  /** An escaped value never starts like the NULL mark or the end-of-data mark. */
  lemma EscapedStart(b: string)
    ensures var s := Escaped(b); |s| >= 2 && s[0] == '\\' ==> s[1] != 'N' && s[1] != '.'
  {
  }

  /** The literal string `\N` and every other value stay distinct from NULL. */
  lemma ReadFieldText(f: Field)
    ensures ReadField(FieldText(f)) == f
  {
    if f.Some? {
      EscapedStart(f.value);
      UnescapeEscaped(f.value);
    }
  }

  lemma CellsCons(first: string, rest: string)
    requires Quoted(first, '\t')
    ensures Cells(first) == [first] && [first][1..] == []
    ensures ([first] + Cells(rest))[1..] == Cells(rest)
    ensures Cells(first + "\t" + rest) == [first] + Cells(rest)
  {
    QuotedIsSkipped(first, rest, '\t');
    var line := first + "\t" + rest;
    assert line[..|first|] == first && line[|first| + 1..] == rest;
  }

  lemma {:induction false} ReadRowText(row: seq<Field>)
    ensures ReadRow(RowText(row)) == if row == [] then [Some("")] else row
  {
    if row == [] {
      assert Cells("") == [""];
    } else {
      FieldTextQuoted(row[0], '\t');
      ReadFieldText(row[0]);
      if |row| == 1 {
        CellsCons(FieldText(row[0]), "");
      } else {
        CellsCons(FieldText(row[0]), RowText(row[1..]));
        ReadRowText(row[1..]);
        assert row == [row[0]] + row[1..];
      }
    }
  }

  /** No row is ever mistaken for the end-of-data line. */
  lemma RowIsNotEndMarker(row: seq<Field>)
    ensures RowText(row) != "\\."
  {
    if row != [] {
      var first := FieldText(row[0]);
      if row[0].Some? { EscapedStart(row[0].value); }
      if |row| > 1 {
        assert RowText(row)[|first|] == '\t';
      } else {
        assert RowText(row) == first;
      }
    }
  }

  /** The reader takes a line off, if it is not the end-of-data line. */
  lemma ReadLine(line: string, rest: string)
    requires Quoted(line, '\n') && line != "\\."
    ensures ReadCopy(line + "\n" + rest) == [ReadRow(line)] + ReadCopy(rest)
  {
    var s := line + "\n" + rest;
    QuotedIsSkipped(line, rest, '\n');
    assert s[..|line|] == line && s[|line| + 1..] == rest;
  }

  /** What the reader gets back from any payload: the rows as written, except that a row
      without columns reads as one empty field. */
  lemma {:induction false} ReadPayload(table: seq<seq<Field>>)
    ensures |ReadCopy(Payload(table))| == |table|
    ensures forall i :: 0 <= i < |table| ==>
              ReadCopy(Payload(table))[i] == if table[i] == [] then [Some("")] else table[i]
  {
    if table == [] {
    } else {
      var line, rest := RowText(table[0]), Payload(table[1..]);
      RowTextQuoted(table[0]);
      RowIsNotEndMarker(table[0]);
      ReadLine(line, rest);
      ReadRowText(table[0]);
      ReadPayload(table[1..]);
      assert Payload(table) == line + "\n" + rest;
    }
  }

  /** The round trip, and exactly when it holds: whenever no row is without columns. */
  lemma RoundTrip(table: seq<seq<Field>>)
    ensures ReadCopy(Payload(table)) == table <==> forall row :: row in table ==> row != []
  {
    ReadPayload(table);
    if [] in table {
      var i :| 0 <= i < |table| && table[i] == [];
      assert ReadCopy(Payload(table))[i] == [Some("")];
    }
  }

  lemma {:induction false} EscapedHasNoControl(b: string, c: char)
    requires EscapeOf(c) != "" && c != '\\'
    ensures c !in Escaped(b)
  {
    if b == "" {
    } else {
      EscapedHasNoControl(b[1..], c);
      assert c !in EscapeOf(b[0]);
    }
  }

  /** A newline, carriage return or tab of a value never reaches the payload raw: the
      payload has no carriage return and exactly one newline for each row. */
  lemma {:induction false} PayloadFraming(table: seq<seq<Field>>)
    ensures '\r' !in Payload(table)
    ensures Count(Payload(table), '\n') == |table|
  {
    if table == [] {
    } else {
      RowFraming(table[0]);
      PayloadFraming(table[1..]);
      var line := RowText(table[0]);
      CountZero(line, '\n');
      CountAppend(line, "\n", '\n');
      assert Count("\n", '\n') == 1;
      CountAppend(line + "\n", Payload(table[1..]), '\n');
    }
  }

  lemma {:induction false} RowFraming(row: seq<Field>)
    ensures '\r' !in RowText(row) && '\n' !in RowText(row)
    ensures row != [] ==> Count(RowText(row), '\t') == |row| - 1
  {
    if row == [] {
    } else {
      var first := FieldText(row[0]);
      if row[0].Some? {
        EscapedHasNoControl(row[0].value, '\r');
        EscapedHasNoControl(row[0].value, '\n');
        EscapedHasNoControl(row[0].value, '\t');
      }
      CountZero(first, '\t');
      if |row| > 1 {
        RowFraming(row[1..]);
        CountAppend(first, "\t", '\t');
        assert Count("\t", '\t') == 1;
        CountAppend(first + "\t", RowText(row[1..]), '\t');
      }
    }
  }
}
