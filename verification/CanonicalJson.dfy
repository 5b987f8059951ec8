/** Compact, key-sorted JSON of flat records, as the audit chain and the idempotency check hash and
    compare it: `json.dumps(obj, sort_keys=True, separators=(",", ":"), ensure_ascii=False)`.
    String escaping follows section 7 of RFC 8259. The reader `Loads` accepts exactly that form; its
    round trip with the printer is what makes printing injective. */
module CanonicalJson {
  import opened Prelude

  datatype Value = Null | Bool(b: bool) | Int(n: int) | Str(s: string)

  datatype Field = Field(key: string, value: Value)

  // ---------- Printing ----------

  function DigitChar(d: nat): char
    requires d < 16
  {
    if d < 10 then ('0' as int + d) as char else ('a' as int + d - 10) as char
  }

  function Escape(c: char): string {
    if c == '\"' then "\\\""
    else if c == '\\' then "\\\\"
    else if c == '\n' then "\\n"
    else if c == '\r' then "\\r"
    else if c == '\t' then "\\t"
    else if c as int == 0x0c then "\\f"
    else if c as int == 0x08 then "\\b"
    else if c as int < 0x20 then "\\u00" + [DigitChar(c as int / 16), DigitChar(c as int % 16)]
    else [c]
  }

  function EscapeAll(s: string): string {
    if s == "" then "" else Escape(s[0]) + EscapeAll(s[1..])
  }

  function PrintString(s: string): string {
    "\"" + EscapeAll(s) + "\""
  }

  function Digits(n: nat): string {
    if n < 10 then [DigitChar(n)] else Digits(n / 10) + [DigitChar(n % 10)]
  }

  function PrintInt(n: int): string {
    if n < 0 then "-" + Digits(-n) else Digits(n)
  }

  function PrintValue(v: Value): string {
    match v
    case Null => "null"
    case Bool(b) => if b then "true" else "false"
    case Int(n) => PrintInt(n)
    case Str(s) => PrintString(s)
  }

  function PrintField(f: Field): string {
    PrintString(f.key) + ":" + PrintValue(f.value)
  }

  /** The members of a non-empty object and its closing brace. */
  function PrintMembers(fs: seq<Field>): string
    requires fs != []
  {
    PrintField(fs[0]) + if |fs| == 1 then "}" else "," + PrintMembers(fs[1..])
  }

  function PrintObject(fs: seq<Field>): string {
    if fs == [] then "{}" else "{" + PrintMembers(fs)
  }

  // ---------- Reading ----------

  function HexValue(c: char): Option<int> {
    if '0' <= c <= '9' then Some(c as int - '0' as int)
    else if 'a' <= c <= 'f' then Some(c as int - 'a' as int + 10)
    else None
  }

  /** The character that starts `cs`, and how many characters its escape takes. */
  function Unescape(cs: string): (r: Option<(char, nat)>)
    ensures r.Some? ==> 0 < r.value.1 <= |cs|
  {
    if cs == "" || cs[0] == '\"' || cs[0] as int < 0x20 then None
    else if cs[0] != '\\' then Some((cs[0], 1))
    else if |cs| < 2 then None
    else match cs[1]
      case '\"' => Some(('\"', 2))
      case '\\' => Some(('\\', 2))
      case 'n' => Some(('\n', 2))
      case 'r' => Some(('\r', 2))
      case 't' => Some(('\t', 2))
      case 'f' => Some((0x0c as char, 2))
      case 'b' => Some((0x08 as char, 2))
      case 'u' =>
        if |cs| < 6 || cs[2] != '0' || cs[3] != '0' then None
        else (match (HexValue(cs[4]), HexValue(cs[5]))
              case (Some(hi), Some(lo)) => Some(((16 * hi + lo) as char, 6))
              case _ => None)
      case _ => None
  }

  /** Reads up to the closing quote; returns the text and what follows the quote. */
  function ReadString(cs: string): (r: Option<(string, string)>)
    ensures r.Some? ==> |r.value.1| < |cs|
  {
    if cs == "" then None
    else if cs[0] == '\"' then Some(("", cs[1..]))
    else match Unescape(cs)
      case None => None
      case Some((c, n)) =>
        match ReadString(cs[n..])
        case None => None
        case Some((s, rest)) => Some(([c] + s, rest))
  }

  predicate StartsWithDigit(cs: string) {
    cs != "" && '0' <= cs[0] <= '9'
  }

  function ReadNat(cs: string, acc: nat): (r: (nat, string))
    ensures |r.1| <= |cs|
  {
    if StartsWithDigit(cs) then ReadNat(cs[1..], 10 * acc + (cs[0] as int - '0' as int)) else (acc, cs)
  }

  function ReadLiteral(cs: string, text: string, v: Value): (r: Option<(Value, string)>)
    requires text != ""
    ensures r.Some? ==> |r.value.1| < |cs|
  {
    if text <= cs then Some((v, cs[|text|..])) else None
  }

  function ReadValue(cs: string): (r: Option<(Value, string)>)
    ensures r.Some? ==> |r.value.1| < |cs|
  {
    if cs == "" then None
    else if cs[0] == 'n' then ReadLiteral(cs, "null", Null)
    else if cs[0] == 't' then ReadLiteral(cs, "true", Bool(true))
    else if cs[0] == 'f' then ReadLiteral(cs, "false", Bool(false))
    else if cs[0] == '\"' then
      (match ReadString(cs[1..])
       case None => None
       case Some((s, rest)) => Some((Str(s), rest)))
    else if StartsWithDigit(cs) then
      var r := ReadNat(cs[1..], cs[0] as int - '0' as int);
      Some((Int(r.0), r.1))
    else if cs[0] == '-' && StartsWithDigit(cs[1..]) then
      var r := ReadNat(cs[2..], cs[1] as int - '0' as int);
      Some((Int(0 - r.0), r.1))
    else None
  }

  function ReadField(cs: string): (r: Option<(Field, string)>)
    ensures r.Some? ==> |r.value.1| < |cs|
  {
    if cs == "" || cs[0] != '\"' then None
    else match ReadString(cs[1..])
      case None => None
      case Some((k, rest)) =>
        if rest == "" || rest[0] != ':' then None
        else match ReadValue(rest[1..])
          case None => None
          case Some((v, rest')) => Some((Field(k, v), rest'))
  }

  function ReadMembers(cs: string): Option<seq<Field>>
    decreases |cs|
  {
    match ReadField(cs)
    case None => None
    case Some((f, rest)) =>
      if rest == "}" then Some([f])
      else if rest != "" && rest[0] == ',' then
        (match ReadMembers(rest[1..])
         case None => None
         case Some(fs) => Some([f] + fs))
      else None
  }

  function Loads(cs: string): Option<seq<Field>> {
    if cs == "{}" then Some([])
    else if cs != "" && cs[0] == '{' then ReadMembers(cs[1..])
    else None
  }

  // ---------- Round trip ----------

  lemma UnescapeEscape(c: char, rest: string)
    ensures Unescape(Escape(c) + rest) == Some((c, |Escape(c)|))
  {
    var cs := Escape(c) + rest;
    if c as int < 0x20 && |Escape(c)| == 6 {
      var hi, lo := c as int / 16, c as int % 16;
      assert cs[4] == DigitChar(hi) && cs[5] == DigitChar(lo);
      assert HexValue(DigitChar(hi)) == Some(hi) && HexValue(DigitChar(lo)) == Some(lo);
      assert (16 * hi + lo) as char == c;
    }
  }

  lemma {:induction false} ReadPrintedString(s: string, rest: string)
    ensures ReadString(EscapeAll(s) + "\"" + rest) == Some((s, rest))
    decreases |s|
  {
    var cs := EscapeAll(s) + "\"" + rest;
    if s == "" {
      assert cs == "\"" + rest;
    } else {
      var e := Escape(s[0]);
      var tail := EscapeAll(s[1..]) + "\"" + rest;
      assert cs == e + tail;
      UnescapeEscape(s[0], tail);
      assert cs[|e|..] == tail;
      ReadPrintedString(s[1..], rest);
      assert [s[0]] + s[1..] == s;
    }
  }

  lemma {:induction false} ReadDigits(n: nat, rest: string)
    ensures ReadNat(Digits(n) + rest, 0) == ReadNat(rest, n)
  {
    if n < 10 {
      assert (Digits(n) + rest)[1..] == rest;
    } else {
      var d := DigitChar(n % 10);
      assert Digits(n) + rest == Digits(n / 10) + ([d] + rest);
      ReadDigits(n / 10, [d] + rest);
      assert ([d] + rest)[1..] == rest;
    }
  }

  lemma {:induction false} DigitsStart(n: nat)
    ensures StartsWithDigit(Digits(n))
  {
    if n >= 10 {
      DigitsStart(n / 10);
    }
  }

  /** Reading from the second digit on with the first as accumulator is reading from the start. */
  lemma ReadPrintedNat(n: nat, rest: string)
    requires !StartsWithDigit(rest)
    ensures var cs := Digits(n) + rest;
            StartsWithDigit(cs) && ReadNat(cs[1..], cs[0] as int - '0' as int) == (n, rest)
  {
    hide Digits;
    DigitsStart(n);
    ReadDigits(n, rest);
    var cs := Digits(n) + rest;
    assert cs[0] == Digits(n)[0];
    assert ReadNat(cs, 0) == ReadNat(cs[1..], cs[0] as int - '0' as int);
  }

  lemma ReadNumber(cs: string)
    requires StartsWithDigit(cs)
    ensures var r := ReadNat(cs[1..], cs[0] as int - '0' as int);
            ReadValue(cs) == Some((Int(r.0), r.1)) &&
            ReadValue("-" + cs) == Some((Int(0 - r.0), r.1))
  {
    var neg := "-" + cs;
    assert neg[1..] == cs && neg[2..] == cs[1..];
  }

  lemma ReadSignedDigits(n: nat, rest: string)
    requires !StartsWithDigit(rest)
    ensures ReadValue(Digits(n) + rest) == Some((Int(n), rest))
    ensures ReadValue("-" + (Digits(n) + rest)) == Some((Int(0 - n), rest))
  {
    ReadPrintedNat(n, rest);
    ReadNumber(Digits(n) + rest);
  }

  lemma ReadPrintedInt(n: int, rest: string)
    requires !StartsWithDigit(rest)
    ensures ReadValue(PrintInt(n) + rest) == Some((Int(n), rest))
  {
    var m: nat := if n < 0 then 0 - n else n;
    var text := PrintInt(n) + rest;
    assert text == if n < 0 then "-" + (Digits(m) + rest) else Digits(m) + rest;
    ReadSignedDigits(m, rest);
  }

  lemma ReadPrintedLiteral(text: string, v: Value, rest: string)
    requires text != ""
    ensures ReadLiteral(text + rest, text, v) == Some((v, rest))
  {
  }

  lemma ReadPrintedNull(rest: string)
    ensures ReadValue("null" + rest) == Some((Null, rest))
  {
    assert ("null" + rest)[0] == 'n';
    hide ReadLiteral;
    ReadPrintedLiteral("null", Null, rest);
  }

  lemma ReadPrintedTrue(rest: string)
    ensures ReadValue("true" + rest) == Some((Bool(true), rest))
  {
    assert ("true" + rest)[0] == 't';
    hide ReadLiteral;
    ReadPrintedLiteral("true", Bool(true), rest);
  }

  lemma ReadPrintedFalse(rest: string)
    ensures ReadValue("false" + rest) == Some((Bool(false), rest))
  {
    assert ("false" + rest)[0] == 'f';
    hide ReadLiteral;
    ReadPrintedLiteral("false", Bool(false), rest);
  }

  lemma ReadPrintedText(s: string, rest: string)
    ensures ReadValue(PrintString(s) + rest) == Some((Str(s), rest))
  {
    hide EscapeAll, ReadString;
    ReadPrintedString(s, rest);
    var tail := EscapeAll(s) + "\"" + rest;
    assert PrintString(s) + rest == "\"" + tail;
    ReadQuoted(tail);
  }

  lemma ReadQuoted(tail: string)
    ensures ReadString(tail).Some? ==>
              ReadValue("\"" + tail) == Some((Str(ReadString(tail).value.0), ReadString(tail).value.1))
  {
    hide ReadString;
    var cs := "\"" + tail;
    assert cs[0] == '\"' && cs[1..] == tail;
  }

  lemma ReadPrintedValue(v: Value, rest: string)
    requires !StartsWithDigit(rest)
    ensures ReadValue(PrintValue(v) + rest) == Some((v, rest))
  {
    hide ReadValue, PrintString, PrintInt;
    match v {
      case Null => ReadPrintedNull(rest);
      case Bool(b) =>
        ReadPrintedTrue(rest);
        ReadPrintedFalse(rest);
      case Int(n) => ReadPrintedInt(n, rest);
      case Str(s) => ReadPrintedText(s, rest);
    }
  }

  lemma ReadPrintedField(f: Field, rest: string)
    requires !StartsWithDigit(rest)
    ensures ReadField(PrintField(f) + rest) == Some((f, rest))
  {
    hide EscapeAll, ReadString, PrintValue, ReadValue, StartsWithDigit;
    var cs := PrintField(f) + rest;
    var rest' := ":" + PrintValue(f.value) + rest;
    assert cs[1..] == EscapeAll(f.key) + "\"" + rest';
    ReadPrintedString(f.key, rest');
    assert rest'[1..] == PrintValue(f.value) + rest;
    ReadPrintedValue(f.value, rest);
  }

  lemma MembersPrint(fs: seq<Field>)
    requires fs != []
    ensures PrintMembers(fs) != ""
  {
  }

  lemma {:induction false} ReadPrintedMembers(fs: seq<Field>)
    requires fs != []
    ensures ReadMembers(PrintMembers(fs)) == Some(fs)
    decreases |fs|
  {
    hide PrintField, ReadField;
    var rest := if |fs| == 1 then "}" else "," + PrintMembers(fs[1..]);
    ReadPrintedField(fs[0], rest);
    if |fs| == 1 {
      assert fs == [fs[0]];
    } else {
      assert rest[1..] == PrintMembers(fs[1..]);
      MembersPrint(fs[1..]);
      ReadPrintedMembers(fs[1..]);
      assert [fs[0]] + fs[1..] == fs;
    }
  }

  /** Reading back what was printed gives the same fields, in the same order. */
  lemma RoundTrip(fs: seq<Field>)
    ensures Loads(PrintObject(fs)) == Some(fs)
  {
    if fs != [] {
      ReadPrintedMembers(fs);
      var cs := PrintObject(fs);
      assert cs[1..] == PrintMembers(fs);
      assert cs[1] == '\"';
    }
  }

  // ---------- Key sorting ----------

  /** Code-point order on strings, the order `sort_keys` uses. */
  predicate Leq(a: string, b: string) {
    a == "" || (b != "" && (a[0] < b[0] || (a[0] == b[0] && Leq(a[1..], b[1..]))))
  }

  lemma {:induction false} LeqTotal(a: string, b: string)
    ensures Leq(a, b) || Leq(b, a)
    ensures Leq(a, b) && Leq(b, a) ==> a == b
  {
    if a != "" && b != "" && a[0] == b[0] {
      LeqTotal(a[1..], b[1..]);
      assert a == [a[0]] + a[1..] && b == [b[0]] + b[1..];
    }
  }

  lemma {:induction false} LeqTransitive(a: string, b: string, c: string)
    requires Leq(a, b) && Leq(b, c)
    ensures Leq(a, c)
  {
    if a != "" && a[0] == b[0] == c[0] {
      LeqTransitive(a[1..], b[1..], c[1..]);
    }
  }

  function Insert(f: Field, fs: seq<Field>): seq<Field> {
    if fs == [] || Leq(f.key, fs[0].key) then [f] + fs else [fs[0]] + Insert(f, fs[1..])
  }

  function SortByKey(fs: seq<Field>): seq<Field> {
    if fs == [] then [] else Insert(fs[0], SortByKey(fs[1..]))
  }

  function Canonical(fs: seq<Field>): string {
    PrintObject(SortByKey(fs))
  }

  ghost predicate DistinctKeys(fs: seq<Field>) {
    forall i, j :: 0 <= i < j < |fs| ==> fs[i].key != fs[j].key
  }

  ghost predicate Sorted(fs: seq<Field>) {
    forall i, j :: 0 <= i < j < |fs| ==> Leq(fs[i].key, fs[j].key)
  }

  lemma {:induction false} InsertSorts(f: Field, fs: seq<Field>)
    requires Sorted(fs)
    ensures Sorted(Insert(f, fs)) && multiset(Insert(f, fs)) == multiset(fs) + multiset{f}
  {
    hide Leq;
    var r := Insert(f, fs);
    if fs != [] {
      assert fs == [fs[0]] + fs[1..];
      LeqTotal(f.key, fs[0].key);
      if Leq(f.key, fs[0].key) {
        forall i, j | 0 <= i < j < |r| ensures Leq(r[i].key, r[j].key) {
          if i == 0 && j > 1 { LeqTransitive(f.key, fs[0].key, fs[j - 1].key); }
        }
      } else {
        InsertSorts(f, fs[1..]);
        forall j | 0 < j < |r| ensures Leq(r[0].key, r[j].key) {
          assert r[j] in multiset(Insert(f, fs[1..]));
          assert r[j] in multiset(fs[1..]) || r[j] == f;
        }
      }
    }
  }

  lemma {:induction false} SortSorts(fs: seq<Field>)
    ensures Sorted(SortByKey(fs)) && multiset(SortByKey(fs)) == multiset(fs)
  {
    if fs != [] {
      SortSorts(fs[1..]);
      InsertSorts(fs[0], SortByKey(fs[1..]));
      assert fs == [fs[0]] + fs[1..];
    }
  }

  ghost predicate OneValuePerKey(m: multiset<Field>) {
    forall f, g :: f in m && g in m && f.key == g.key ==> f == g
  }

  /** The least field heads every sorted listing of the same fields. */
  lemma HeadsAgree(a: seq<Field>, b: seq<Field>)
    requires Sorted(a) && Sorted(b) && multiset(a) == multiset(b) && OneValuePerKey(multiset(a))
    requires a != [] && b != []
    ensures a[0] == b[0]
  {
    assert a[0] in multiset(a) && b[0] in multiset(b);
    assert a[0] in b && b[0] in a;
    LeqTotal(a[0].key, b[0].key);
  }

  lemma TailFields(a: seq<Field>)
    requires a != [] && Sorted(a) && OneValuePerKey(multiset(a))
    ensures multiset(a[1..]) == multiset(a) - multiset{a[0]}
    ensures Sorted(a[1..]) && OneValuePerKey(multiset(a[1..]))
  {
    assert a == [a[0]] + a[1..];
    assert forall f :: f in multiset(a[1..]) ==> f in multiset(a);
  }

  lemma {:induction false} SortedUnique(a: seq<Field>, b: seq<Field>)
    requires Sorted(a) && Sorted(b) && multiset(a) == multiset(b) && OneValuePerKey(multiset(a))
    ensures a == b
    decreases |a|
  {
    hide Sorted, OneValuePerKey;
    assert |a| == |multiset(a)| && |b| == |multiset(b)|;
    if a != [] {
      HeadsAgree(a, b);
      TailFields(a);
      TailFields(b);
      SortedUnique(a[1..], b[1..]);
      assert a == [a[0]] + a[1..] && b == [b[0]] + b[1..];
    }
  }

  lemma DistinctKeysOneValue(fs: seq<Field>)
    requires DistinctKeys(fs)
    ensures OneValuePerKey(multiset(fs))
  {
    forall f, g | f in multiset(fs) && g in multiset(fs) && f.key == g.key ensures f == g {
      var i :| 0 <= i < |fs| && fs[i] == f;
      var j :| 0 <= j < |fs| && fs[j] == g;
      assert i == j;
    }
  }

  /** Two records print alike exactly when they hold the same fields, whatever order they were listed in. */
  lemma CanonicalInjective(a: seq<Field>, b: seq<Field>)
    requires DistinctKeys(a) && DistinctKeys(b)
    ensures Canonical(a) == Canonical(b) <==> multiset(a) == multiset(b)
  {
    SortSorts(a);
    SortSorts(b);
    RoundTrip(SortByKey(a));
    RoundTrip(SortByKey(b));
    if multiset(a) == multiset(b) {
      DistinctKeysOneValue(a);
      SortedUnique(SortByKey(a), SortByKey(b));
    }
  }

  /** Records with the same keys print alike exactly when they agree on every value. */
  lemma RecordInjective(a: seq<Field>, b: seq<Field>)
    requires DistinctKeys(a) && |a| == |b| && forall i :: 0 <= i < |a| ==> a[i].key == b[i].key
    ensures Canonical(a) == Canonical(b) <==> a == b
  {
    hide Canonical;
    CanonicalInjective(a, b);
    if multiset(a) == multiset(b) {
      forall i | 0 <= i < |a| ensures a[i] == b[i] {
        assert a[i] in multiset(b);
        var j :| 0 <= j < |b| && b[j] == a[i];
        assert a[j].key == a[i].key;
      }
    }
  }

  /** `dict.get` on a parsed object. */
  function Get(fs: seq<Field>, key: string): Option<Value> {
    if fs == [] then None else if fs[0].key == key then Some(fs[0].value) else Get(fs[1..], key)
  }

  lemma {:induction false} GetPresent(fs: seq<Field>, f: Field)
    requires OneValuePerKey(multiset(fs)) && f in multiset(fs)
    ensures Get(fs, f.key) == Some(f.value)
  {
    assert fs == [fs[0]] + fs[1..];
    assert fs[0] in multiset(fs);
    if fs[0].key != f.key {
      assert f in multiset(fs[1..]);
      assert forall g :: g in multiset(fs[1..]) ==> g in multiset(fs);
      GetPresent(fs[1..], f);
    }
  }

  /** Any field of a printed record can be read back from its canonical text. */
  lemma LoadsGet(fs: seq<Field>, f: Field)
    requires DistinctKeys(fs) && f in fs
    ensures Loads(Canonical(fs)).Some? && Get(Loads(Canonical(fs)).value, f.key) == Some(f.value)
  {
    SortSorts(fs);
    RoundTrip(SortByKey(fs));
    DistinctKeysOneValue(fs);
    assert f in multiset(fs);
    GetPresent(SortByKey(fs), f);
  }
}
