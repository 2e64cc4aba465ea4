/**
  Canonical JSON (src/syllva/gate/canonical.py) and the text that `request_hash` digests.

  A Python dict is modelled by its insertion-ordered entries. Unicode NFC is an arbitrary
  function on strings: nothing below depends on its tables.
*/
module CanonicalJson {
  import opened Wrappers
  import opened Decimal

  datatype Key = Text(text: string) | NotText

  /** What a caller may pass: any Python value, including the kinds that are refused. */
  datatype Value =
    | Null
    | Bool(b: bool)
    | Int(n: int)
    | Float
    | Str(s: string)
    | List(items: seq<Value>)
    | Dict(entries: seq<Entry>)
    | Other

  datatype Entry = Entry(key: Key, value: Value)

  /** A normalized value; dict entries have distinct keys. */
  datatype Norm =
    | NNull
    | NBool(b: bool)
    | NInt(n: int)
    | NStr(s: string)
    | NList(items: seq<Norm>)
    | NDict(fields: seq<Field>)

  datatype Field = Field(key: string, value: Norm)

  // ---------------------------------------------------------------------------------------
  // _normalize

  /** `out[key] = value` on an insertion-ordered dict. */
  function Assign(fields: seq<Field>, f: Field): seq<Field> {
    if fields == [] then [f]
    else if fields[0].key == f.key then [f] + fields[1..]
    else [fields[0]] + Assign(fields[1..], f)
  }

  function Normalize(nfc: string -> string, v: Value): Option<Norm>
    decreases v, 1
  {
    match v
    case Null => Some(NNull)
    case Bool(b) => Some(NBool(b))
    case Int(n) => Some(NInt(n))
    case Str(s) => Some(NStr(nfc(s)))
    case List(items) => (match NormalizeItems(nfc, items) case Some(xs) => Some(NList(xs)) case None => None)
    case Dict(entries) => (match NormalizeEntries(nfc, entries) case Some(fs) => Some(NDict(AssignAll(fs))) case None => None)
    case Float => None
    case Other => None
  }

  function NormalizeItems(nfc: string -> string, items: seq<Value>): (r: Option<seq<Norm>>)
    ensures r.Some? <==> forall i :: 0 <= i < |items| ==> Normalize(nfc, items[i]).Some?
    ensures r.Some? ==> |r.value| == |items| && forall i :: 0 <= i < |items| ==> Some(r.value[i]) == Normalize(nfc, items[i])
    decreases items, 0
  {
    if items == [] then Some([])
    else
      var head := Normalize(nfc, items[0]);
      var tail := NormalizeItems(nfc, items[1..]);
      if head.Some? && tail.Some? then Some([head.value] + tail.value) else None
  }

  function NormalizeEntry(nfc: string -> string, e: Entry): Option<Field>
    decreases e, 2
  {
    if e.key.NotText? then None
    else match Normalize(nfc, e.value)
      case Some(n) => Some(Field(nfc(e.key.text), n))
      case None => None
  }

  function NormalizeEntries(nfc: string -> string, entries: seq<Entry>): (r: Option<seq<Field>>)
    ensures r.Some? <==> forall i :: 0 <= i < |entries| ==> NormalizeEntry(nfc, entries[i]).Some?
    ensures r.Some? ==> |r.value| == |entries| && forall i :: 0 <= i < |entries| ==> Some(r.value[i]) == NormalizeEntry(nfc, entries[i])
    decreases entries, 0
  {
    if entries == [] then Some([])
    else
      var head := NormalizeEntry(nfc, entries[0]);
      var tail := NormalizeEntries(nfc, entries[1..]);
      if head.Some? && tail.Some? then Some([head.value] + tail.value) else None
  }

  /** The loop's assignments in order: a later field overwrites an earlier one with the same key. */
  function AssignAll(fields: seq<Field>): seq<Field> {
    if fields == [] then [] else Assign(AssignAll(fields[..|fields|-1]), fields[|fields|-1])
  }

  // ---------------------------------------------------------------------------------------
  // sort_keys=True

  /** Code point order on strings. */
  predicate Less(a: string, b: string) {
    if b == [] then false
    else if a == [] then true
    else a[0] < b[0] || (a[0] == b[0] && Less(a[1..], b[1..]))
  }

  /** The same by position: at the first place where they differ `a` has the smaller character, or has ended. */
  ghost predicate Precedes(a: string, b: string) {
    exists k :: FirstDifference(a, b, k) && (k == |a| || a[k] < b[k])
  }

  /** They agree up to `k`, and `b` goes on. */
  ghost predicate FirstDifference(a: string, b: string, k: int) { 0 <= k <= |a| && k < |b| && a[..k] == b[..k] }

  lemma SameStart(a: string, b: string, k: int)
    requires FirstDifference(a, b, k) && k > 0
    ensures a != [] && b != [] && a[0] == b[0]
  {
    assert a[..k][0] == b[..k][0];
  }

  lemma {:induction false} LessExactly(a: string, b: string)
    ensures Less(a, b) <==> Precedes(a, b)
  {
    if a == [] || b == [] || a[0] != b[0] {
      if b != [] && Less(a, b) { assert FirstDifference(a, b, 0); }
      forall k | FirstDifference(a, b, k) ensures k == 0 {
        if k > 0 { SameStart(a, b, k); }
      }
    } else {
      var c, d := a[1..], b[1..];
      LessExactly(c, d);
      if k :| FirstDifference(c, d, k) && (k == |c| || c[k] < d[k]) {
        assert a[..k+1] == [a[0]] + c[..k] && b[..k+1] == [b[0]] + d[..k];
        assert FirstDifference(a, b, k + 1);
      }
      if k :| FirstDifference(a, b, k) && (k == |a| || a[k] < b[k]) {
        assert c[..k-1] == a[..k][1..] && d[..k-1] == b[..k][1..];
        assert FirstDifference(c, d, k - 1);
      }
    }
  }

  lemma {:induction false} LessIsTotal(a: string, b: string)
    ensures Less(a, b) || Less(b, a) || a == b
    ensures !(Less(a, b) && Less(b, a)) && !Less(a, a)
  {
    if a != [] && b != [] {
      LessIsTotal(a[1..], b[1..]);
      if a[0] == b[0] && a[1..] == b[1..] {
        assert a == [a[0]] + a[1..] == b;
      }
    }
    if a != [] { LessIsTotal(a[1..], a[1..]); }
  }

  lemma {:induction false} LessIsTransitive(a: string, b: string, c: string)
    requires Less(a, b) && Less(b, c)
    ensures Less(a, c)
  {
    if a != [] && a[0] == b[0] && b[0] == c[0] {
      LessIsTransitive(a[1..], b[1..], c[1..]);
    }
  }

  function InsertField(f: Field, sorted: seq<Field>): seq<Field> {
    if sorted == [] || Less(f.key, sorted[0].key) then [f] + sorted
    else [sorted[0]] + InsertField(f, sorted[1..])
  }

  function Sort(fields: seq<Field>): seq<Field> {
    if fields == [] then [] else InsertField(fields[0], Sort(fields[1..]))
  }

  /** Every dict in a value with its entries in key order. */
  function Sorted(n: Norm): Norm
    decreases n, 1
  {
    match n
    case NList(items) => NList(SortedItems(items))
    case NDict(fields) => NDict(Sort(SortedFields(fields)))
    case _ => n
  }

  function SortedItems(items: seq<Norm>): seq<Norm>
    decreases items, 0
  {
    if items == [] then [] else [Sorted(items[0])] + SortedItems(items[1..])
  }

  function SortedFields(fields: seq<Field>): (r: seq<Field>)
    ensures |r| == |fields|
    ensures forall i :: 0 <= i < |fields| ==> r[i] == Field(fields[i].key, Sorted(fields[i].value))
    decreases fields, 0
  {
    if fields == [] then []
    else [Field(fields[0].key, Sorted(fields[0].value))] + SortedFields(fields[1..])
  }

  // ---------------------------------------------------------------------------------------
  // json.dumps(..., ensure_ascii=False, separators=(",", ":"))

  function HexChar(d: nat): char
    requires d < 16
  {
    if d < 10 then ('0' as int + d) as char else ('a' as int + d - 10) as char
  }

  function Escape(c: char): string {
    if c == '"' then "\\\""
    else if c == '\\' then "\\\\"
    else if c == '\n' then "\\n"
    else if c == '\r' then "\\r"
    else if c == '\t' then "\\t"
    else if c == 8 as char then "\\b"
    else if c == 12 as char then "\\f"
    else if c < ' ' then "\\u00" + [HexChar(c as int / 16), HexChar(c as int % 16)]
    else [c]
  }

  function Escaped(s: string): string {
    if s == [] then [] else Escape(s[0]) + Escaped(s[1..])
  }

  function Quote(s: string): string { "\"" + Escaped(s) + "\"" }

  function IntText(n: int): string { if n < 0 then "-" + Digits(-n) else Digits(n) }

  function Write(n: Norm): string
    decreases n, 1
  {
    match n
    case NNull => "null"
    case NBool(b) => if b then "true" else "false"
    case NInt(i) => IntText(i)
    case NStr(s) => Quote(s)
    case NList(items) => "[" + (if items == [] then "]" else WriteItems(items))
    case NDict(fields) => "{" + (if fields == [] then "}" else WriteFields(fields))
  }

  function WriteItems(items: seq<Norm>): string
    requires items != []
    decreases items, 0
  {
    Write(items[0]) + (if |items| == 1 then "]" else "," + WriteItems(items[1..]))
  }

  function WriteField(f: Field): string
    decreases f, 2
  {
    Quote(f.key) + ":" + Write(f.value)
  }

  function WriteFields(fields: seq<Field>): string
    requires fields != []
    decreases fields, 0
  {
    WriteField(fields[0]) + (if |fields| == 1 then "}" else "," + WriteFields(fields[1..]))
  }

  function Dumps(nfc: string -> string, v: Value): Option<string> {
    match Normalize(nfc, v)
    case Some(n) => Some(Write(Sorted(n)))
    case None => None
  }

  // ---------------------------------------------------------------------------------------
  // A reader for the written form (RFC 8259 grammar without white space, fractions or exponents)

  predicate IsHex(c: char) { '0' <= c <= '9' || 'a' <= c <= 'f' }

  function HexOf(c: char): (d: nat)
    requires IsHex(c)
    ensures d < 16
  {
    if c <= '9' then c as int - '0' as int else c as int - 'a' as int + 10
  }

  /** Reads one character of a string body; None at a closing quote or on malformed text. */
  function ReadChar(s: string): (r: Option<(char, string)>)
    ensures r.Some? ==> |r.value.1| < |s|
  {
    if s == [] || s[0] == '"' || s[0] < ' ' then None
    else if s[0] != '\\' then Some((s[0], s[1..]))
    else if |s| < 2 then None
    else if s[1] == '"' || s[1] == '\\' then Some((s[1], s[2..]))
    else if s[1] == 'n' then Some(('\n', s[2..]))
    else if s[1] == 'r' then Some(('\r', s[2..]))
    else if s[1] == 't' then Some(('\t', s[2..]))
    else if s[1] == 'b' then Some((8 as char, s[2..]))
    else if s[1] == 'f' then Some((12 as char, s[2..]))
    else if s[1] == 'u' && |s| >= 6 && s[2] == '0' && s[3] == '0' && IsHex(s[4]) && IsHex(s[5]) then
      Some(((16 * HexOf(s[4]) + HexOf(s[5])) as char, s[6..]))
    else None
  }

  /** The body of a string up to and including its closing quote. */
  function ReadBody(s: string): (r: Option<(string, string)>)
    ensures r.Some? ==> |r.value.1| < |s|
    decreases |s|
  {
    if s != [] && s[0] == '"' then Some(([], s[1..]))
    else match ReadChar(s)
      case None => None
      case Some((c, rest)) =>
        match ReadBody(rest)
        case None => None
        case Some((t, rest')) => Some(([c] + t, rest'))
  }

  function ReadQuoted(s: string): (r: Option<(string, string)>)
    ensures r.Some? ==> |r.value.1| < |s|
  {
    if s != [] && s[0] == '"' then ReadBody(s[1..]) else None
  }

  function ReadNat(s: string): (r: Option<(nat, string)>)
    ensures r.Some? ==> |r.value.1| < |s|
  {
    var k := DigitRun(s);
    if k == 0 then None else Some((Number(s[..k]), s[k..]))
  }

  predicate StartsWith(s: string, c: char) { s != [] && s[0] == c }

  function ReadWord(s: string, word: string, n: Norm): (r: Option<(Norm, string)>)
    requires word != []
    ensures r.Some? ==> |r.value.1| < |s|
  {
    if |word| <= |s| && s[..|word|] == word then Some((n, s[|word|..])) else None
  }

  function ReadNumber(s: string): (r: Option<(Norm, string)>)
    ensures r.Some? ==> |r.value.1| < |s|
  {
    if StartsWith(s, '-') then
      (match ReadNat(s[1..]) case None => None case Some((n, rest)) => Some((NInt(0 - n), rest)))
    else
      (match ReadNat(s) case None => None case Some((n, rest)) => Some((NInt(n), rest)))
  }

  function Read(s: string): (r: Option<(Norm, string)>)
    ensures r.Some? ==> |r.value.1| < |s|
    decreases |s|, 0
  {
    if s == [] then None
    else if s[0] == '"' then
      (match ReadBody(s[1..]) case None => None case Some((t, rest)) => Some((NStr(t), rest)))
    else if s[0] == '[' then
      if StartsWith(s[1..], ']') then Some((NList([]), s[2..]))
      else (match ReadItems(s[1..]) case None => None case Some((xs, rest)) => Some((NList(xs), rest)))
    else if s[0] == '{' then
      if StartsWith(s[1..], '}') then Some((NDict([]), s[2..]))
      else (match ReadFields(s[1..]) case None => None case Some((fs, rest)) => Some((NDict(fs), rest)))
    else if s[0] == 'n' then ReadWord(s, "null", NNull)
    else if s[0] == 't' then ReadWord(s, "true", NBool(true))
    else if s[0] == 'f' then ReadWord(s, "false", NBool(false))
    else ReadNumber(s)
  }

  function ReadItems(s: string): (r: Option<(seq<Norm>, string)>)
    ensures r.Some? ==> |r.value.1| < |s|
    decreases |s|, 1
  {
    match Read(s)
    case None => None
    case Some((x, rest)) =>
      if StartsWith(rest, ']') then Some(([x], rest[1..]))
      else if StartsWith(rest, ',') then
        (match ReadItems(rest[1..]) case None => None case Some((xs, rest')) => Some(([x] + xs, rest')))
      else None
  }

  function ReadField(s: string): (r: Option<(Field, string)>)
    ensures r.Some? ==> |r.value.1| < |s|
    decreases |s|, 1
  {
    match ReadQuoted(s)
    case None => None
    case Some((k, rest)) =>
      if StartsWith(rest, ':') then
        (match Read(rest[1..]) case None => None case Some((v, rest')) => Some((Field(k, v), rest')))
      else None
  }

  function ReadFields(s: string): (r: Option<(seq<Field>, string)>)
    ensures r.Some? ==> |r.value.1| < |s|
    decreases |s|, 2
  {
    match ReadField(s)
    case None => None
    case Some((f, rest)) =>
      if StartsWith(rest, '}') then Some(([f], rest[1..]))
      else if StartsWith(rest, ',') then
        (match ReadFields(rest[1..]) case None => None case Some((fs, rest')) => Some(([f] + fs, rest')))
      else None
  }

  // ---------------------------------------------------------------------------------------
  // Reading undoes writing

  lemma ReadCharUndoesEscape(c: char, rest: string)
    ensures ReadChar(Escape(c) + rest) == Some((c, rest))
  {
    var s := Escape(c) + rest;
    assert s[|Escape(c)|..] == rest;
    if c < ' ' && |Escape(c)| == 6 {
      assert s[4] == HexChar(c as int / 16) && s[5] == HexChar(c as int % 16);
    }
  }

  /** Of all the spellings that a reader takes for a character, the written one is the shortest. */
  lemma EscapeIsShortest(c: char, s: string)
    requires ReadChar(s) == Some((c, []))
    ensures s == Escape(c) || |Escape(c)| < |s|
  {
    if |s| == 1 { assert s == [s[0]]; }
    if |s| == 2 { assert s == [s[0], s[1]]; }
    if |s| == 6 { assert s == [s[0], s[1], s[2], s[3], s[4], s[5]]; }
  }

  lemma EscapeStart(c: char)
    ensures Escape(c) != [] && Escape(c)[0] != '"'
  {
  }

  lemma {:induction false} ReadBodyUndoesEscaped(t: string, rest: string)
    ensures ReadBody(Escaped(t) + "\"" + rest) == Some((t, rest))
  {
    hide ReadChar, Escape;
    if t == [] {
      assert Escaped(t) + "\"" + rest == "\"" + rest;
      assert ("\"" + rest)[1..] == rest;
    } else {
      var tail := Escaped(t[1..]) + "\"" + rest;
      assert Escaped(t) + "\"" + rest == Escape(t[0]) + tail;
      ReadCharUndoesEscape(t[0], tail);
      ReadBodyUndoesEscaped(t[1..], rest);
      EscapeStart(t[0]);
      assert (Escape(t[0]) + tail)[0] == Escape(t[0])[0];
      assert [t[0]] + t[1..] == t;
    }
  }

  lemma ReadQuotedUndoesQuote(t: string, rest: string)
    ensures ReadQuoted(Quote(t) + rest) == Some((t, rest))
  {
    hide Escaped;
    ReadBodyUndoesEscaped(t, rest);
    assert (Quote(t) + rest)[1..] == Escaped(t) + "\"" + rest;
  }

  lemma ReadNatUndoesDigits(n: nat, rest: string)
    requires Delimited(rest)
    ensures ReadNat(Digits(n) + rest) == Some((n, rest))
  {
    var d := Digits(n);
    DigitRunOfDigits(d, rest);
    NumberOfDigits(n);
    assert (d + rest)[..|d|] == d && (d + rest)[|d|..] == rest;
  }

  lemma ReadDispatchesNumbers(s: string)
    requires s != [] && (s[0] == '-' || IsDigit(s[0]))
    ensures Read(s) == ReadNumber(s)
  {
  }

  lemma ReadUndoesIntText(n: int, rest: string)
    requires Delimited(rest)
    ensures Read(IntText(n) + rest) == Some((NInt(n), rest))
  {
    hide Read, ReadNat, Digits, DigitRun, Number;
    var s := IntText(n) + rest;
    assert s[0] == IntText(n)[0];
    ReadDispatchesNumbers(s);
    if n < 0 {
      ReadNatUndoesDigits(-n, rest);
      assert s[1..] == Digits(-n) + rest;
    } else {
      ReadNatUndoesDigits(n, rest);
      assert !StartsWith(s, '-');
    }
  }

  /** No value starts with a closing bracket, so the empty list and the empty dict are unambiguous. */
  lemma WriteStart(n: Norm)
    ensures |Write(n)| > 0 && Write(n)[0] != ']' && Write(n)[0] != '}'
  {
  }

  lemma WriteItemsStart(items: seq<Norm>)
    requires items != []
    ensures |WriteItems(items)| > 0 && WriteItems(items)[0] != ']'
  {
    hide Write;
    WriteStart(items[0]);
  }

  lemma WriteFieldsStart(fields: seq<Field>)
    requires fields != []
    ensures |WriteFields(fields)| > 0 && WriteFields(fields)[0] != '}'
  {
    hide Write, Escaped;
  }

  lemma ReadUndoesKeyword(n: Norm, rest: string)
    requires n.NNull? || n.NBool?
    ensures Read(Write(n) + rest) == Some((n, rest))
  {
    var s := Write(n) + rest;
    assert s[..|Write(n)|] == Write(n) && s[|Write(n)|..] == rest;
    assert s[0] == Write(n)[0];
  }

  lemma ReadUndoesQuote(t: string, rest: string)
    ensures Read(Quote(t) + rest) == Some((NStr(t), rest))
  {
    hide Escaped;
    ReadBodyUndoesEscaped(t, rest);
    assert (Quote(t) + rest)[1..] == Escaped(t) + "\"" + rest;
  }

  lemma ReadUndoesBrackets(s: string, items: seq<Norm>, rest: string)
    requires s != [] && s[0] != ']' && ReadItems(s) == Some((items, rest))
    ensures Read("[" + s) == Some((NList(items), rest))
  {
    assert ("[" + s)[1..] == s;
  }

  lemma ReadUndoesBraces(s: string, fields: seq<Field>, rest: string)
    requires s != [] && s[0] != '}' && ReadFields(s) == Some((fields, rest))
    ensures Read("{" + s) == Some((NDict(fields), rest))
  {
    assert ("{" + s)[1..] == s;
  }

  lemma ReadUndoesEmpty(rest: string)
    ensures Read("[]" + rest) == Some((NList([]), rest))
    ensures Read("{}" + rest) == Some((NDict([]), rest))
  {
    var l, d := "[]" + rest, "{}" + rest;
    assert l[1..] == "]" + rest && l[2..] == rest;
    assert d[1..] == "}" + rest && d[2..] == rest;
  }

  lemma {:induction false} ReadUndoesWrite(n: Norm, rest: string)
    requires Delimited(rest)
    ensures Read(Write(n) + rest) == Some((n, rest))
    decreases n, 1
  {
    hide Read, ReadItems, ReadFields, WriteItems, WriteFields, Quote, IntText;
    match n
    case NNull => ReadUndoesKeyword(n, rest);
    case NBool(_) => ReadUndoesKeyword(n, rest);
    case NInt(i) => ReadUndoesIntText(i, rest);
    case NStr(s) => ReadUndoesQuote(s, rest);
    case NList(items) =>
      if items == [] {
        ReadUndoesEmpty(rest);
        assert Write(n) + rest == "[]" + rest;
      } else {
        var s := WriteItems(items) + rest;
        ReadItemsUndoesWrite(items, rest);
        WriteItemsStart(items);
        ReadUndoesBrackets(s, items, rest);
        assert Write(n) + rest == "[" + s;
      }
    case NDict(fields) =>
      if fields == [] {
        ReadUndoesEmpty(rest);
        assert Write(n) + rest == "{}" + rest;
      } else {
        var s := WriteFields(fields) + rest;
        ReadFieldsUndoesWrite(fields, rest);
        WriteFieldsStart(fields);
        ReadUndoesBraces(s, fields, rest);
        assert Write(n) + rest == "{" + s;
      }
  }

  lemma {:induction false} ReadItemsUndoesWrite(items: seq<Norm>, rest: string)
    requires items != []
    ensures ReadItems(WriteItems(items) + rest) == Some((items, rest))
    decreases items, 0
  {
    hide Read, Write;
    if |items| == 1 {
      ReadUndoesWrite(items[0], "]" + rest);
      assert WriteItems(items) + rest == Write(items[0]) + ("]" + rest);
      assert ("]" + rest)[1..] == rest;
      assert items == [items[0]];
    } else {
      var more := "," + (WriteItems(items[1..]) + rest);
      ReadUndoesWrite(items[0], more);
      ReadItemsUndoesWrite(items[1..], rest);
      assert WriteItems(items) + rest == Write(items[0]) + more;
      assert more[1..] == WriteItems(items[1..]) + rest;
      assert items == [items[0]] + items[1..];
    }
  }

  lemma Reassociate(a: string, b: string, c: string, d: string)
    ensures (a + b + c) + d == a + (b + (c + d))
  {
  }

  lemma ReadUndoesColon(f: Field, s: string, rest: string)
    requires Read(s) == Some((f.value, rest))
    ensures ReadField(Quote(f.key) + (":" + s)) == Some((f, rest))
  {
    ReadQuotedUndoesQuote(f.key, ":" + s);
    assert (":" + s)[1..] == s;
  }

  lemma {:induction false} ReadFieldUndoesWrite(f: Field, rest: string)
    requires Delimited(rest)
    ensures ReadField(WriteField(f) + rest) == Some((f, rest))
    decreases f, 2
  {
    ReadUndoesWrite(f.value, rest);
    ReadUndoesColon(f, Write(f.value) + rest, rest);
    Reassociate(Quote(f.key), ":", Write(f.value), rest);
  }

  lemma {:induction false} ReadFieldsUndoesWrite(fields: seq<Field>, rest: string)
    requires fields != []
    ensures ReadFields(WriteFields(fields) + rest) == Some((fields, rest))
    decreases fields, 0
  {
    hide ReadField, WriteField;
    if |fields| == 1 {
      ReadFieldUndoesWrite(fields[0], "}" + rest);
      assert WriteFields(fields) + rest == WriteField(fields[0]) + ("}" + rest);
      assert ("}" + rest)[1..] == rest;
      assert fields == [fields[0]];
    } else {
      var more := "," + (WriteFields(fields[1..]) + rest);
      ReadFieldUndoesWrite(fields[0], more);
      ReadFieldsUndoesWrite(fields[1..], rest);
      assert WriteFields(fields) + rest == WriteField(fields[0]) + more;
      assert more[1..] == WriteFields(fields[1..]) + rest;
      assert fields == [fields[0]] + fields[1..];
    }
  }

  /** The written form determines the value. */
  lemma WriteInjective(a: Norm, b: Norm)
    requires Write(a) == Write(b)
    ensures a == b
  {
    ReadUndoesWrite(a, []);
    ReadUndoesWrite(b, []);
    assert Write(a) + [] == Write(a) && Write(b) + [] == Write(b);
  }
}
