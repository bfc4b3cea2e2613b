/** Numbers as Go's big.Int reads them in base 0, which hd.go relies on. */
module Numbers {
  import opened Transactions

  /** A digit's value in any base up to 36. */
  function DigitOf(c: char): nat {
    if '0' <= c <= '9' then (c as int - '0' as int) as nat
    else if 'a' <= c <= 'z' then (c as int - 'a' as int + 10) as nat
    else if 'A' <= c <= 'Z' then (c as int - 'A' as int + 10) as nat
    else 36
  }

  /** What came before: nothing, a digit or a prefix, or a separator. */
  datatype Prev = Start | Digit | Separator

  /** Reads digits to the end of the string. Underscores may separate digits; no digit, a misplaced separator or a
      foreign character is an error. */
  function Scan(s: string, base: nat, value: nat, prev: Prev, any: bool): Option<nat> {
    if s == "" then (if prev.Separator? || !any then None else Some(value))
    else if s[0] == '_' then (if prev.Digit? then Scan(s[1..], base, value, Separator, any) else None)
    else if DigitOf(s[0]) < base then Scan(s[1..], base, value * base + DigitOf(s[0]), Digit, true)
    else None
  }

  /** An unsigned number; a prefix tells its base. */
  function ScanNat(s: string): Option<nat> {
    if s == "" then None
    else if s[0] != '0' then Scan(s, 10, 0, Start, false)
    else if |s| == 1 then Some(0)
    else if s[1] == 'b' || s[1] == 'B' then Scan(s[2..], 2, 0, Digit, false)
    else if s[1] == 'o' || s[1] == 'O' then Scan(s[2..], 8, 0, Digit, false)
    else if s[1] == 'x' || s[1] == 'X' then Scan(s[2..], 16, 0, Digit, false)
    else Scan(s[1..], 8, 0, Digit, false)
  }

  /** A number with an optional sign. */
  function SetString(s: string): Option<int> {
    if s == "" then None
    else
      var n := ScanNat(if s[0] == '+' || s[0] == '-' then s[1..] else s);
      if n.None? then None
      else
        var value: int := if s[0] == '-' then -(n.value as int) else n.value;
        Some(value)
  }

  function DigitChar(d: nat): char
    requires d < 36
  {
    if d < 10 then ('0' as int + d) as char else ('a' as int + d - 10) as char
  }

  /** A number in a base, digits above nine as letters. */
  function Numeral(n: nat, base: nat): string
    requires 2 <= base <= 36
  {
    if n < base then [DigitChar(n)] else Numeral(Quotient(n, base), base) + [DigitChar(Rest(n, base))]
  }

  function Quotient(n: nat, base: nat): (q: nat)
    requires base >= 2
    ensures n > 0 ==> q < n
  {
    Smaller(n, base, n / base, n % base);
    n / base
  }

  lemma Smaller(n: nat, base: nat, q: nat, r: nat)
    requires base >= 2 && q * base + r == n
    ensures n > 0 ==> q < n
  {
    assert q * 2 <= q * base;
  }

  function Rest(n: nat, base: nat): (r: nat)
    requires base >= 2
    ensures r < base
  {
    n % base
  }

  predicate IsDecimal(s: string) {
    forall i :: 0 <= i < |s| ==> '0' <= s[i] <= '9'
  }

  /** A number in decimal notation. */
  function Decimal(n: nat): string {
    Numeral(n, 10)
  }

  predicate IsNumeral(s: string, base: nat) {
    forall i :: 0 <= i < |s| ==> DigitOf(s[i]) < base && s[i] != '_'
  }

  lemma DigitIs(d: nat, base: nat)
    requires d < base <= 36
    ensures DigitOf(DigitChar(d)) == d && DigitChar(d) != '_' && (DigitChar(d) == '0' ==> d == 0)
    ensures base <= 10 ==> '0' <= DigitChar(d) <= '9'
  {
  }

  lemma {:induction false} NumeralShape(n: nat, base: nat)
    requires 2 <= base <= 36
    ensures IsNumeral(Numeral(n, base), base) && |Numeral(n, base)| > 0
    ensures Numeral(n, base)[0] == '0' ==> n == 0 && |Numeral(n, base)| == 1
    ensures base <= 10 ==> IsDecimal(Numeral(n, base))
    decreases n
  {
    hide Quotient, Rest, DigitOf, DigitChar;
    if n >= base {
      NumeralShape(Quotient(n, base), base);
      LeadingDigit(n, base);
      DigitIs(Rest(n, base), base);
    } else {
      DigitIs(n, base);
    }
  }

  lemma LeadingDigit(n: nat, base: nat)
    requires 2 <= base <= n
    ensures Quotient(n, base) > 0
  {
    if n / base == 0 {
      Euclid(n, base);
    }
  }

  /** Digits are read one by one, whatever follows. */
  lemma {:induction false} ScanDigits(s: string, t: string, base: nat, value: nat, prev: Prev, any: bool)
    requires IsNumeral(s, base)
    ensures Scan(s + t, base, value, prev, any) ==
            if s == "" then Scan(t, base, value, prev, any) else Scan(t, base, Value(s, base, value), Digit, true)
    decreases |s|
  {
    if s == "" {
      assert s + t == t;
    } else {
      ScanDigits(s[1..], t, base, value * base + DigitOf(s[0]), Digit, true);
      hide Scan;
      ScanOne(s[0], s[1..] + t, base, value, prev, any);
      assert s + t == [s[0]] + (s[1..] + t);
    }
  }

  lemma ScanOne(c: char, t: string, base: nat, value: nat, prev: Prev, any: bool)
    requires DigitOf(c) < base && c != '_'
    ensures Scan([c] + t, base, value, prev, any) == Scan(t, base, value * base + DigitOf(c), Digit, true)
  {
    assert ([c] + t)[1..] == t;
  }

  /** The value of digits after `value`. */
  function Value(s: string, base: nat, value: nat): nat {
    if s == "" then value else Value(s[1..], base, value * base + DigitOf(s[0]))
  }

  lemma {:induction false} ValueLast(s: string, c: char, base: nat, value: nat)
    ensures Value(s + [c], base, value) == Value(s, base, value) * base + DigitOf(c)
    decreases |s|
  {
    if s == "" {
      assert s + [c] == [c];
    } else {
      assert (s + [c])[1..] == s[1..] + [c];
      ValueLast(s[1..], c, base, value * base + DigitOf(s[0]));
    }
  }

  lemma {:induction false} NumeralValue(n: nat, base: nat)
    requires 2 <= base <= 36
    ensures Value(Numeral(n, base), base, 0) == n
    decreases n
  {
    hide Quotient, Rest, DigitOf, DigitChar;
    if n >= base {
      NumeralValue(Quotient(n, base), base);
      DigitIs(Rest(n, base), base);
      ValueLast(Numeral(Quotient(n, base), base), DigitChar(Rest(n, base)), base, 0);
      Euclid(n, base);
    } else {
      DigitIs(n, base);
      ValueLast("", DigitChar(n), base, 0);
      assert "" + [DigitChar(n)] == Numeral(n, base);
    }
  }

  lemma Euclid(n: nat, base: nat)
    requires base >= 2
    ensures Quotient(n, base) * base + Rest(n, base) == n
  {
  }

  /** What is printed in a base is scanned in it. */
  lemma NumeralScanned(n: nat, base: nat, prev: Prev)
    requires 2 <= base <= 36
    ensures Scan(Numeral(n, base), base, 0, prev, false) == Some(n)
  {
    hide Numeral, Scan;
    NumeralShape(n, base);
    NumeralValue(n, base);
    var s := Numeral(n, base);
    ScanDigits(s, "", base, 0, prev, false);
    assert s + "" == s;
    EmptyScan(base, Value(s, base, 0));
  }

  lemma EmptyScan(base: nat, value: nat)
    ensures Scan("", base, value, Digit, true) == Some(value)
  {
  }

  lemma DecimalShape(n: nat)
    ensures |Decimal(n)| > 0 && IsDecimal(Decimal(n))
    ensures Decimal(n)[0] == '0' ==> n == 0 && |Decimal(n)| == 1
  {
    NumeralShape(n, 10);
  }

  /** What is printed in decimal is read back, base 0 or not, and with a sign. */
  lemma DecimalRead(n: nat)
    ensures SetString(Decimal(n)) == Some(n) && SetString("+" + Decimal(n)) == Some(n)
    ensures SetString("-" + Decimal(n)) == Some(-(n as int))
  {
    hide Numeral, Scan;
    var s := Decimal(n);
    DecimalShape(n);
    NumeralScanned(n, 10, Start);
    assert ScanNat(s) == Some(n);
    assert ("+" + s)[1..] == s && ("-" + s)[1..] == s;
  }

  /** A prefix tells the base. */
  lemma PrefixRead(n: nat)
    ensures SetString("0x" + Numeral(n, 16)) == Some(n) && SetString("0X" + Numeral(n, 16)) == Some(n)
    ensures SetString("0b" + Numeral(n, 2)) == Some(n) && SetString("0o" + Numeral(n, 8)) == Some(n)
    ensures SetString("0" + Numeral(n, 8)) == Some(n)
  {
    hide Numeral, Scan;
    NumeralScanned(n, 16, Digit);
    NumeralScanned(n, 2, Digit);
    NumeralScanned(n, 8, Digit);
    assert ("0x" + Numeral(n, 16))[2..] == Numeral(n, 16) == ("0X" + Numeral(n, 16))[2..];
    assert ("0b" + Numeral(n, 2))[2..] == Numeral(n, 2) && ("0o" + Numeral(n, 8))[2..] == Numeral(n, 8);
    NumeralShape(n, 8);
    var s := "0" + Numeral(n, 8);
    assert s[1..] == Numeral(n, 8) && s[1] == Numeral(n, 8)[0];
  }
}

/** DerivationPath of accounts/hd.go. */
module HdPaths {
  import opened Transactions
  import opened Numbers

  const TWO_31: int := 0x8000_0000
  const TWO_32: int := 0x1_0000_0000

  type uint32 = n: int | 0 <= n < TWO_32

  type Path = seq<uint32>

  const DEFAULT_ROOT: Path := [TWO_31 + 44, TWO_31 + 60, TWO_31, 0]

  datatype Error = EmptyPath | AmbiguousPath | InvalidComponent | OutOfRange
  datatype Result<T> = Ok(value: T) | Err(error: Error)

  /** unicode.IsSpace. */
  predicate IsSpace(c: char) {
    || ('\t' <= c <= '\r') || c == ' ' || c == '\U{0085}' || c == '\U{00A0}' || c == '\U{1680}'
    || ('\U{2000}' <= c <= '\U{200A}') || c == '\U{2028}' || c == '\U{2029}' || c == '\U{202F}' || c == '\U{205F}'
    || c == '\U{3000}'
  }

  /** strings.TrimSpace. */
  function TrimSpace(s: string): string {
    if s != "" && IsSpace(s[0]) then TrimSpace(s[1..])
    else if s != "" && IsSpace(s[|s| - 1]) then TrimSpace(s[..|s| - 1])
    else s
  }

  /** strings.Split at slashes. */
  function Split(s: string): (r: seq<string>)
    ensures |r| > 0
  {
    if s == "" then [""]
    else
      var r := Split(s[1..]);
      if s[0] == '/' then [""] + r else [[s[0]] + r[0]] + r[1..]
  }

  /** One component: an optional hardened marker, a number, and its bound. */
  function Component(s: string): Result<uint32> {
    var c := TrimSpace(s);
    var hardened := c != "" && c[|c| - 1] == '\'';
    var digits := if hardened then TrimSpace(c[..|c| - 1]) else c;
    var base := if hardened then TWO_31 else 0;
    var n := SetString(digits);
    if n.None? then Err(InvalidComponent)
    else if n.value < 0 || n.value > TWO_32 - 1 - base then Err(OutOfRange)
    else Ok(base + n.value)
  }

  /** The components in turn; the first error is the result's. */
  function Components(cs: seq<string>): Result<Path> {
    if cs == [] then Ok([])
    else
      var before := Components(cs[..|cs| - 1]);
      if before.Err? then before
      else
        var c := Component(cs[|cs| - 1]);
        if c.Err? then Err(c.error) else Ok(before.value + [c.value])
  }

  /** A path string: absolute after "m", otherwise relative to the default root. */
  function Parse(path: string): Result<Path> {
    var cs := Split(path);
    if TrimSpace(cs[0]) == "" then Err(AmbiguousPath)
    else if TrimSpace(cs[0]) == "m" then (if |cs| == 1 then Err(EmptyPath) else Components(cs[1..]))
    else
      var r := Components(cs);
      if r.Err? then r else Ok(DEFAULT_ROOT + r.value)
  }

  lemma {:induction false} FirstError(cs: seq<string>, i: nat)
    requires i <= |cs| && Components(cs[..i]).Err?
    ensures Components(cs) == Components(cs[..i])
    decreases |cs| - i
  {
    if i < |cs| {
      assert cs[..i + 1][..i] == cs[..i];
      FirstError(cs, i + 1);
    } else {
      assert cs[..i] == cs;
    }
  }

  /** ParseDerivationPath, with its loop over the components. */
  method ParseDerivationPath(path: string) returns (r: Result<Path>)
    ensures r == Parse(path)
  {
    hide Split, TrimSpace, Components;
    var root: Path := [];
    var components := Split(path);
    if TrimSpace(components[0]) == "" {
      return Err(AmbiguousPath);
    } else if TrimSpace(components[0]) == "m" {
      components := components[1..];
    } else {
      root := DEFAULT_ROOT;
    }
    if |components| == 0 {
      return Err(EmptyPath);
    }
    r := ParseComponents(components, root);
    assert r.Ok? && root == [] ==> r.value == Components(components).value;
  }

  /** The loop of ParseDerivationPath. */
  method ParseComponents(components: seq<string>, root: Path) returns (r: Result<Path>)
    ensures r == if Components(components).Err? then Err(Components(components).error)
                 else Ok(root + Components(components).value)
  {
    hide Component;
    var result := root;
    for i := 0 to |components|
      invariant Components(components[..i]).Ok? && result == root + Components(components[..i]).value
    {
      assert components[..i + 1][..i] == components[..i];
      var component := ParseComponent(components[i]);
      if component.Err? {
        FirstError(components, i + 1);
        return Err(component.error);
      }
      result := result + [component.value];
    }
    assert components[..|components|] == components;
    return Ok(result);
  }

  method ParseComponent(component: string) returns (r: Result<uint32>)
    ensures r == Component(component)
  {
    var c, value := TrimSpace(component), 0;
    if c != "" && c[|c| - 1] == '\'' {
      value := TWO_31;
      c := TrimSpace(c[..|c| - 1]);
    }
    var bigval := SetString(c);
    if bigval.None? {
      return Err(InvalidComponent);
    }
    var max := TWO_32 - 1 - value;
    if bigval.value < 0 || bigval.value > max {
      return Err(OutOfRange);
    }
    return Ok(value + bigval.value);
  }

  /** One component printed. */
  function PrintComponent(n: uint32): string {
    if n >= TWO_31 then Decimal(n - TWO_31) + "'" else Decimal(n)
  }

  /** A path printed. */
  function Print(path: Path): string {
    if path == [] then "m" else Print(path[..|path| - 1]) + "/" + PrintComponent(path[|path| - 1])
  }

  /** DerivationPath.String. */
  method String(path: Path) returns (result: string)
    ensures result == Print(path)
  {
    result := "m";
    for i := 0 to |path|
      invariant result == Print(path[..i])
    {
      assert path[..i + 1][..i] == path[..i];
      var component, hardened := path[i], false;
      if component >= TWO_31 {
        component := component - TWO_31;
        hardened := true;
      }
      result := result + "/" + Decimal(component);
      if hardened {
        result := result + "'";
      }
    }
    assert path[..|path|] == path;
  }

  /** What neither starts nor ends with white space is not trimmed. */
  lemma NotTrimmed(s: string)
    requires s != "" && !IsSpace(s[0]) && !IsSpace(s[|s| - 1])
    ensures TrimSpace(s) == s
  {
  }

  /** A printed component is read back, hardened or not. */
  lemma ComponentRead(n: uint32)
    ensures Component(PrintComponent(n)) == Ok(n) && '/' !in PrintComponent(n)
  {
    hide SetString, TrimSpace, Decimal;
    var d := if n >= TWO_31 then n - TWO_31 else n;
    DecimalShape(d);
    DecimalRead(d);
    NotTrimmed(Decimal(d));
    NotTrimmed(PrintComponent(n));
    var s := PrintComponent(n);
    if n >= TWO_31 {
      assert s[..|s| - 1] == Decimal(d);
    }
  }

  predicate AllSpaces(s: string) {
    forall i :: 0 <= i < |s| ==> IsSpace(s[i])
  }

  /** White space around a string is trimmed, and no more. */
  lemma {:induction false} Trimmed(l: string, s: string, r: string)
    requires AllSpaces(l) && AllSpaces(r) && (s == "" || (!IsSpace(s[0]) && !IsSpace(s[|s| - 1])))
    ensures TrimSpace(l + s + r) == s
    decreases |l| + |r|
  {
    hide IsSpace;
    var t := l + s + r;
    if l != "" {
      assert t[0] == l[0] && t[1..] == l[1..] + s + r;
      Trimmed(l[1..], s, r);
    } else if r != "" {
      assert t[|t| - 1] == r[|r| - 1] && t[..|t| - 1] == l + s + r[..|r| - 1];
      Trimmed(l, s, r[..|r| - 1]);
      assert t == s + r;
      if s == "" {
        assert t == r && t[1..] == l + s + r[1..];
        Trimmed(l, s, r[1..]);
      }
    } else {
      assert t == s;
    }
  }

  /** A component may have white space around it and around its number. */
  lemma SpacedComponent(l: string, m: string, r: string, n: nat)
    requires AllSpaces(l) && AllSpaces(m) && AllSpaces(r)
    ensures Component(l + Decimal(n) + r) == if n < TWO_32 then Ok(n) else Err(OutOfRange)
    ensures Component(l + (Decimal(n) + m + "'") + r) == if n < TWO_31 then Ok(TWO_31 + n) else Err(OutOfRange)
  {
    hide SetString, TrimSpace, Decimal, IsSpace;
    var d := Decimal(n);
    DecimalShape(n);
    DecimalRead(n);
    NoSpace(d);
    Trimmed(l, d, r);
    var s := d + m + "'";
    Apostrophe();
    assert s[0] == d[0] && s[|s| - 1] == '\'' && s[..|s| - 1] == "" + d + m;
    Trimmed(l, s, r);
    Trimmed("", d, m);
  }

  lemma NoSpace(d: string)
    requires IsDecimal(d) && d != ""
    ensures !IsSpace(d[0]) && !IsSpace(d[|d| - 1]) && d[|d| - 1] != '\''
  {
  }

  lemma Apostrophe()
    ensures !IsSpace('\'')
  {
  }

  /** A path without the "m" is the absolute one under m/44'/60'/0'/0. */
  lemma RelativePath(s: string)
    requires var first := TrimSpace(Split(s)[0]); first != "" && first != "m"
    ensures var absolute := Parse("m/" + s);
            Parse(s) == if absolute.Err? then absolute
                        else Ok([0x8000_002C, 0x8000_003C, 0x8000_0000, 0] + absolute.value)
  {
    hide TrimSpace, Components;
    SplitFirst(s);
    NotTrimmed("m");
    assert (["m"] + Split(s))[1..] == Split(s);
  }

  lemma SplitFirst(s: string)
    ensures Split("m/" + s) == ["m"] + Split(s)
  {
    assert "m/" + s == "m" + "/" + s;
    SplitAt("m", s);
  }

  /** A path that starts with a slash, or with nothing, is refused, whatever follows. */
  lemma Ambiguous(l: string, s: string)
    requires AllSpaces(l) && '/' !in l
    ensures Parse(l) == Err(AmbiguousPath) && Parse(l + "/" + s) == Err(AmbiguousPath)
  {
    hide TrimSpace, Components, IsSpace;
    Trimmed(l, "", "");
    assert l + "" + "" == l;
    NoSlash(l);
    SplitAt(l, s);
  }

  lemma {:induction false} SplitAt(a: string, s: string)
    requires '/' !in a
    ensures Split(a + "/" + s) == [a] + Split(s)
    decreases |a|
  {
    if a == "" {
      assert (a + "/" + s)[1..] == s;
    } else {
      SplitAt(a[1..], s);
      assert (a + "/" + s)[1..] == a[1..] + "/" + s;
      assert [a[0]] + a[1..] == a;
    }
  }

  lemma {:induction false} SplitLast(a: string, b: string)
    requires '/' !in b
    ensures Split(a + "/" + b) == Split(a) + [b]
    decreases |a|
  {
    if a == "" {
      NoSlash(b);
      assert (a + "/" + b)[1..] == b;
    } else {
      SplitLast(a[1..], b);
      assert (a + "/" + b)[1..] == a[1..] + "/" + b;
    }
  }

  lemma {:induction false} NoSlash(b: string)
    requires '/' !in b
    ensures Split(b) == [b]
  {
    if b != "" {
      NoSlash(b[1..]);
      assert [b[0]] + b[1..] == b;
    }
  }

  /** A printed path splits into "m" and strings that read as its components. */
  ghost predicate ReadsAs(cs: seq<string>, path: Path) {
    |cs| == |path| + 1 && cs[0] == "m" && Components(cs[1..]) == Ok(path)
  }

  /** Splitting a printed path gives its components back. */
  lemma {:induction false} PrintedComponents(path: Path)
    ensures ReadsAs(Split(Print(path)), path)
  {
    hide ReadsAs, Split, PrintComponent, Print;
    if path == [] {
      PrintedNone();
    } else {
      var rest, last := path[..|path| - 1], path[|path| - 1];
      PrintedComponents(rest);
      PrintedOneMore(rest, last);
      assert path == rest + [last];
    }
  }

  lemma PrintedNone()
    ensures ReadsAs(Split(Print([])), [])
  {
    NoSlash("m");
  }

  lemma PrintedOneMore(path: Path, n: uint32)
    requires ReadsAs(Split(Print(path)), path)
    ensures ReadsAs(Split(Print(path + [n])), path + [n])
  {
    hide ReadsAs, Split, PrintComponent, Print;
    PrintLast(path, n);
    ComponentRead(n);
    SplitLast(Print(path), PrintComponent(n));
    ReadsOneMore(Split(Print(path)), PrintComponent(n), path, n);
  }

  lemma ReadsOneMore(cs: seq<string>, c: string, path: Path, n: uint32)
    requires ReadsAs(cs, path) && Component(c) == Ok(n)
    ensures ReadsAs(cs + [c], path + [n])
  {
    hide Component, Components;
    assert (cs + [c])[1..] == cs[1..] + [c];
    ComponentsLast(cs[1..], c, path, n);
  }

  lemma PrintLast(path: Path, n: uint32)
    ensures Print(path + [n]) == Print(path) + "/" + PrintComponent(n)
  {
    hide PrintComponent;
    assert (path + [n])[..|path|] == path;
  }

  lemma ComponentsLast(cs: seq<string>, c: string, path: Path, n: uint32)
    requires Components(cs) == Ok(path) && Component(c) == Ok(n)
    ensures Components(cs + [c]) == Ok(path + [n])
  {
    hide Component;
    assert (cs + [c])[..|cs|] == cs;
  }

  /** Reading a printed path gives it back, and only the empty path is refused. */
  lemma ParsePrint(path: Path)
    ensures Parse(Print(path)) == if path == [] then Err(EmptyPath) else Ok(path)
  {
    PrintedComponents(path);
    NotTrimmed("m");
  }

  lemma {:induction false} ComponentsLength(cs: seq<string>)
    ensures Components(cs).Ok? ==> |Components(cs).value| == |cs|
  {
    if cs != [] {
      ComponentsLength(cs[..|cs| - 1]);
    }
  }

  /** Reading, printing and reading again is reading once, for every string that is accepted. */
  lemma ParsePrintParse(s: string)
    requires Parse(s).Ok?
    ensures Parse(s).value != [] && Parse(Print(Parse(s).value)) == Parse(s)
  {
    var cs := Split(s);
    ComponentsLength(cs);
    ComponentsLength(cs[1..]);
    ParsePrint(Parse(s).value);
  }

  /** The bounds: a component of up to 31 bits can be hardened, one of 32 bits cannot. */
  lemma Bounds(n: nat)
    ensures Component(Decimal(n)) == if n < TWO_32 then Ok(n) else Err(OutOfRange)
    ensures Component(Decimal(n) + "'") == if n < TWO_31 then Ok(TWO_31 + n) else Err(OutOfRange)
  {
    hide SetString, TrimSpace, Decimal;
    DecimalShape(n);
    DecimalRead(n);
    NotTrimmed(Decimal(n));
    var s := Decimal(n) + "'";
    NotTrimmed(s);
    assert s[..|s| - 1] == Decimal(n);
  }
}
