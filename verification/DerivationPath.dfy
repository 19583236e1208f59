/**
 accounts/hd.go: parsing and printing of hierarchical deterministic wallet paths (BIP-32 notation). Integers are read
 with the syntax of Go's big.Int.SetString for base 0.
 */
module DerivationPath {
  import opened Common

  const HARDENED: nat := 0x8000_0000
  const MAX_UINT32: nat := 0xFFFF_FFFF

  type Component = x: nat | x <= MAX_UINT32

  const DEFAULT_ROOT: seq<Component> := [HARDENED + 44, HARDENED + 60, HARDENED, 0]

  datatype ParseError = EmptyPath | AmbiguousPath | InvalidComponent | OutOfRange | OutOfHardenedRange

  datatype Result<+T> = Ok(value: T) | Err(error: ParseError)

  /** Unicode white space. */
  predicate IsSpace(c: char) {
    c as int in {0x09, 0x0A, 0x0B, 0x0C, 0x0D, 0x20, 0x85, 0xA0, 0x1680, 0x2028, 0x2029, 0x202F, 0x205F, 0x3000}
    || 0x2000 <= c as int <= 0x200A
  }

  function TrimLeft(s: string): string {
    if s != "" && IsSpace(s[0]) then TrimLeft(s[1..]) else s
  }

  function TrimRight(s: string): string {
    if s != "" && IsSpace(s[|s| - 1]) then TrimRight(s[..|s| - 1]) else s
  }

  function TrimSpace(s: string): string {
    TrimRight(TrimLeft(s))
  }

  predicate AllSpace(s: string) {
    forall i :: 0 <= i < |s| ==> IsSpace(s[i])
  }

  lemma {:induction false} TrimmedLeft(s: string) returns (k: nat)
    ensures k <= |s| && TrimLeft(s) == s[k..] && AllSpace(s[..k]) && (k < |s| ==> !IsSpace(s[k]))
  {
    hide IsSpace;
    k := 0;
    if s != "" && IsSpace(s[0]) {
      var j := TrimmedLeft(s[1..]);
      k := j + 1;
      assert s[1..][j..] == s[k..] && forall i :: 1 <= i < k ==> s[i] == s[1..][..j][i - 1];
    }
  }

  lemma {:induction false} TrimmedRight(s: string) returns (k: nat)
    ensures k <= |s| && TrimRight(s) == s[..k] && AllSpace(s[k..]) && (k > 0 ==> !IsSpace(s[k - 1]))
    decreases |s|
  {
    hide IsSpace;
    k := |s|;
    if s != "" && IsSpace(s[|s| - 1]) {
      var init := s[..|s| - 1];
      k := TrimmedRight(init);
      assert init[..k] == s[..k] && forall i :: k <= i < |s| - 1 ==> s[i] == init[k..][i - k];
    }
  }

  /** White space is cut off at both ends, and nothing else. */
  lemma TrimIs(s: string) returns (i: nat, j: nat)
    ensures i <= j <= |s| && TrimSpace(s) == s[i..j] && AllSpace(s[..i]) && AllSpace(s[j..])
    ensures i < j ==> !IsSpace(s[i]) && !IsSpace(s[j - 1])
  {
    hide TrimLeft, TrimRight, IsSpace;
    i := TrimmedLeft(s);
    var k := TrimmedRight(s[i..]);
    j := i + k;
    assert s[i..][..k] == s[i..j] && s[i..][k..] == s[j..];
    assert k > 0 ==> s[i..][k - 1] == s[j - 1];
  }

  /** The parts of a string between slashes. */
  function Split(s: string): (r: seq<string>)
    ensures |r| > 0
  {
    if s == "" then [""]
    else if s[0] == '/' then [""] + Split(s[1..])
    else
      var rest := Split(s[1..]);
      [[s[0]] + rest[0]] + rest[1..]
  }

  /** The value of a digit, or 36 for any other character. */
  function DigitValue(c: char): nat {
    if '0' <= c <= '9' then c as int - '0' as int
    else if 'a' <= c <= 'z' then c as int - 'a' as int + 10
    else if 'A' <= c <= 'Z' then c as int - 'A' as int + 10
    else 36
  }

  /** Digits with single underscores between them, or behind a base prefix. */
  function Digits(s: string, base: nat, prefixed: bool): Option<nat>
    decreases |s|
  {
    if s == "" || DigitValue(s[|s| - 1]) >= base then None
    else
      var d := DigitValue(s[|s| - 1]);
      var before := s[..|s| - 1];
      var high := if before != "" && before[|before| - 1] == '_' then before[..|before| - 1] else before;
      if high == "" then (if before == "" || prefixed then Some(d) else None)
      else
        var v := Digits(high, base, prefixed);
        if v.None? then None else Some(v.value * base + d)
  }

  function ScanNat(s: string): Option<nat> {
    if |s| < 2 || s[0] != '0' then Digits(s, 10, false)
    else if s[1] in "xX" then Digits(s[2..], 16, true)
    else if s[1] in "oO" then Digits(s[2..], 8, true)
    else if s[1] in "bB" then Digits(s[2..], 2, true)
    else Digits(s[1..], 8, true)
  }

  function ScanInt(s: string): Option<int> {
    var signed := s != "" && (s[0] == '-' || s[0] == '+');
    var n := ScanNat(if signed then s[1..] else s);
    if n.None? then None
    else
      var magnitude: int := n.value;
      Some(if signed && s[0] == '-' then -magnitude else magnitude)
  }

  function ParseComponent(text: string): Result<Component> {
    var trimmed := TrimSpace(text);
    var hardened := trimmed != "" && trimmed[|trimmed| - 1] == '\'';
    var number := if hardened then TrimSpace(trimmed[..|trimmed| - 1]) else trimmed;
    var offset := if hardened then HARDENED else 0;
    var v := ScanInt(number);
    if v.None? then Err(InvalidComponent)
    else if v.value < 0 || v.value > MAX_UINT32 - offset then Err(if hardened then OutOfHardenedRange else OutOfRange)
    else Ok(offset + v.value)
  }

  /** All components, or the error of the first one that does not parse. */
  function ParseAll(parts: seq<string>): Result<seq<Component>> {
    if parts == [] then Ok([])
    else
      var before := ParseAll(parts[..|parts| - 1]);
      var last := ParseComponent(parts[|parts| - 1]);
      if before.Err? then before else if last.Err? then Err(last.error) else Ok(before.value + [last.value])
  }

  function Parse(path: string): Result<seq<Component>> {
    var parts := Split(path);
    var head := TrimSpace(parts[0]);
    if head == "" then Err(AmbiguousPath)
    else if head == "m" then
      if |parts| == 1 then Err(EmptyPath) else ParseAll(parts[1..])
    else
      var r := ParseAll(parts);
      if r.Err? then r else Ok(DEFAULT_ROOT + r.value)
  }

  /** One round of the parser: white space is ignored, a trailing quote hardens the number. */
  method ReadComponent(text: string) returns (r: Result<Component>)
    ensures r == ParseComponent(text)
  {
    hide TrimSpace, ScanInt;
    var value := 0;
    var component := TrimSpace(text);
    if component != "" && component[|component| - 1] == '\'' {
      value := HARDENED;
      component := TrimSpace(component[..|component| - 1]);
    }
    var bigval := ScanInt(component);
    if bigval.None? {
      return Err(InvalidComponent);
    }
    var max := MAX_UINT32 - value;
    if bigval.value < 0 || bigval.value > max {
      return Err(if value == 0 then OutOfRange else OutOfHardenedRange);
    }
    r := Ok(value + bigval.value);
  }

  method ReadAll(parts: seq<string>, root: seq<Component>) returns (r: Result<seq<Component>>)
    ensures var all := ParseAll(parts);
            r == (if all.Err? then all else Ok(root + all.value)) && (root == [] ==> r == all)
  {
    hide ParseComponent;
    var result := root;
    for i := 0 to |parts|
      invariant ParseAll(parts[..i]).Ok? && result == root + ParseAll(parts[..i]).value
    {
      assert parts[..i + 1][..i] == parts[..i];
      var value := ReadComponent(parts[i]);
      if value.Err? {
        FirstError(parts, i, value.error);
        return Err(value.error);
      }
      result := result + [value.value];
    }
    assert parts[..|parts|] == parts;
    assert root == [] ==> result == ParseAll(parts).value;
    r := Ok(result);
  }

  method ParseDerivationPath(path: string) returns (r: Result<seq<Component>>)
    ensures r == Parse(path)
  {
    hide ParseAll, Split, TrimSpace;
    var result: seq<Component> := [];
    var components := Split(path);
    if TrimSpace(components[0]) == "" {
      return Err(AmbiguousPath);
    } else if TrimSpace(components[0]) == "m" {
      components := components[1..];
    } else {
      result := DEFAULT_ROOT;
    }
    if |components| == 0 {
      return Err(EmptyPath);
    }
    r := ReadAll(components, result);
  }

  lemma {:induction false} FirstError(parts: seq<string>, i: nat, error: ParseError)
    requires i < |parts| && ParseAll(parts[..i]).Ok? && ParseComponent(parts[i]) == Err(error)
    ensures ParseAll(parts) == Err(error)
    decreases |parts|
  {
    hide ParseComponent;
    if i == |parts| - 1 {
    } else {
      assert parts[..|parts| - 1][..i] == parts[..i];
      FirstError(parts[..|parts| - 1], i, error);
    }
  }

  function Decimal(n: nat): (s: string)
    ensures s != "" && forall i :: 0 <= i < |s| ==> '0' <= s[i] <= '9'
    ensures n > 0 ==> s[0] != '0'
  {
    if n < 10 then [('0' as int + n) as char] else Decimal(n / 10) + [('0' as int + n % 10) as char]
  }

  function ShowComponent(c: Component): string {
    if c >= HARDENED then Decimal(c - HARDENED) + "'" else Decimal(c)
  }

  function ShowTail(path: seq<Component>): string {
    if path == [] then "" else "/" + ShowComponent(path[0]) + ShowTail(path[1..])
  }

  function Show(path: seq<Component>): string {
    "m" + ShowTail(path)
  }

  lemma {:induction false} ShowTailGrows(path: seq<Component>, c: Component)
    ensures ShowTail(path + [c]) == ShowTail(path) + "/" + ShowComponent(c)
  {
    if path == [] {
      assert ShowTail([c]) == "/" + ShowComponent(c) + "";
    } else {
      assert (path + [c])[1..] == path[1..] + [c];
      ShowTailGrows(path[1..], c);
    }
  }

  method String(path: seq<Component>) returns (result: string)
    ensures result == Show(path)
  {
    hide Decimal, ShowTail;
    result := "m";
    ShowTailEmpty();
    for i := 0 to |path|
      invariant result == "m" + ShowTail(path[..i])
    {
      var component, hardened := path[i], false;
      if component >= HARDENED {
        component, hardened := component - HARDENED, true;
      }
      ShowTailGrows(path[..i], path[i]);
      assert path[..i + 1] == path[..i] + [path[i]];
      result := result + "/" + Decimal(component);
      if hardened {
        result := result + "'";
      }
    }
    assert path[..|path|] == path;
  }

  lemma ShowTailEmpty()
    ensures ShowTail([]) == ""
  {
  }

  // The round trip.

  /** No slash, and no white space at either end. */
  predicate Plain(s: string) {
    s != "" && (forall i :: 0 <= i < |s| ==> s[i] != '/') && !IsSpace(s[0]) && !IsSpace(s[|s| - 1])
  }

  lemma ShowPlain(c: Component)
    ensures Plain(ShowComponent(c))
  {
  }

  lemma PlainTrim(s: string)
    requires Plain(s)
    ensures TrimSpace(s) == s
  {
  }

  lemma {:induction false} SplitPlain(s: string, rest: string)
    requires forall i :: 0 <= i < |s| ==> s[i] != '/'
    ensures Split(s + "/" + rest) == [s] + Split(rest) && Split(s) == [s]
  {
    if s == "" {
      assert s + "/" + rest == "/" + rest;
      assert ("/" + rest)[1..] == rest;
    } else {
      assert (s + "/" + rest)[1..] == s[1..] + "/" + rest;
      SplitPlain(s[1..], rest);
      assert [s[0]] + s[1..] == s;
      assert ([s[1..]] + Split(rest))[1..] == Split(rest);
    }
  }

  function ShowAll(path: seq<Component>): seq<string> {
    if path == [] then [] else [ShowComponent(path[0])] + ShowAll(path[1..])
  }

  lemma {:induction false} SplitShown(s: string, path: seq<Component>)
    requires forall i :: 0 <= i < |s| ==> s[i] != '/'
    ensures Split(s + ShowTail(path)) == [s] + ShowAll(path)
    decreases |path|
  {
    hide ShowComponent, Split;
    if path == [] {
      assert s + "" == s;
      SplitPlain(s, "");
    } else {
      var rest := ShowComponent(path[0]) + ShowTail(path[1..]);
      assert s + ShowTail(path) == s + "/" + rest;
      SplitPlain(s, rest);
      ShowPlain(path[0]);
      SplitShown(ShowComponent(path[0]), path[1..]);
    }
  }

  /** A decimal numeral is read back as its number. */
  lemma {:induction false} DigitsDecimal(n: nat)
    ensures Digits(Decimal(n), 10, false) == Some(n)
  {
    if n >= 10 {
      DigitsDecimal(n / 10);
      var high := Decimal(n / 10);
      assert Decimal(n)[..|high|] == high && high[|high| - 1] != '_';
    }
  }

  lemma ScanDecimal(n: nat)
    ensures ScanInt(Decimal(n)) == Some(n)
  {
    DigitsDecimal(n);
    assert n < 10 ==> |Decimal(n)| == 1;
  }

  lemma DecimalPlain(n: nat)
    ensures Plain(Decimal(n))
  {
    hide Decimal;
  }

  lemma ComponentRoundTrip(c: Component)
    ensures ParseComponent(ShowComponent(c)) == Ok(c)
  {
    hide Decimal, ScanInt, TrimSpace, Plain;
    ShowPlain(c);
    PlainTrim(ShowComponent(c));
    var n := if c >= HARDENED then c - HARDENED else c;
    ScanDecimal(n);
    DecimalPlain(n);
    PlainTrim(Decimal(n));
    if c >= HARDENED {
      assert ShowComponent(c)[..|Decimal(n)|] == Decimal(n);
    }
  }

  lemma {:induction false} ShowAllGrows(path: seq<Component>)
    requires path != []
    ensures |ShowAll(path)| == |path|
    ensures ShowAll(path)[..|path| - 1] == ShowAll(path[..|path| - 1])
    ensures ShowAll(path)[|path| - 1] == ShowComponent(path[|path| - 1])
    decreases |path|
  {
    if |path| > 1 {
      ShowAllGrows(path[1..]);
      assert path[1..][..|path| - 2] == path[..|path| - 1][1..];
    }
  }

  lemma {:induction false} AllRoundTrip(path: seq<Component>)
    ensures ParseAll(ShowAll(path)) == Ok(path)
    decreases |path|
  {
    hide ShowComponent, ParseComponent, ParseAll, ShowAll;
    if path == [] {
      NoneParsed();
    } else {
      var init, last := path[..|path| - 1], path[|path| - 1];
      ShowAllGrows(path);
      AllRoundTrip(init);
      ComponentRoundTrip(last);
      ParseLast(ShowAll(init), ShowComponent(last), last);
      assert ShowAll(path) == ShowAll(init) + [ShowComponent(last)] && path == init + [last];
    }
  }

  /** What is printed parses to what was printed, exactly for the paths that are not empty. */
  lemma RoundTrip(path: seq<Component>)
    ensures Parse(Show(path)) == if path == [] then Err(EmptyPath) else Ok(path)
  {
    SplitShown("m", path);
    PlainTrim("m");
    AllRoundTrip(path);
    assert ([Show([])] + ShowAll(path))[1..] == ShowAll(path);
    if path != [] {
      ShowAllGrows(path);
    }
  }

  lemma {:induction false} ParsedSize(parts: seq<string>)
    ensures ParseAll(parts).Ok? ==> |ParseAll(parts).value| == |parts|
  {
    if parts != [] {
      ParsedSize(parts[..|parts| - 1]);
    }
  }

  /** Printing after parsing is canonical: whatever was accepted is printed as a text with the same meaning. */
  lemma CanonicalPrint(text: string)
    requires Parse(text).Ok?
    ensures Parse(Show(Parse(text).value)) == Parse(text)
  {
    var parts := Split(text);
    ParsedSize(parts[1..]);
    RoundTrip(Parse(text).value);
  }

  // Relative paths.

  lemma {:induction false} ParseAllAppends(xs: seq<string>, ys: seq<string>)
    requires ParseAll(xs).Ok?
    ensures ParseAll(xs + ys) ==
            if ParseAll(ys).Ok? then Ok(ParseAll(xs).value + ParseAll(ys).value) else ParseAll(ys)
    decreases |ys|
  {
    hide ParseComponent;
    if ys == [] {
      assert xs + ys == xs && ParseAll(xs).value + [] == ParseAll(xs).value;
    } else {
      var init := ys[..|ys| - 1];
      var all := xs + ys;
      assert all[..|all| - 1] == xs + init && all[|all| - 1] == ys[|ys| - 1];
      ParseAllAppends(xs, init);
      var last := ParseComponent(ys[|ys| - 1]);
      if ParseAll(init).Ok? && last.Ok? {
        var x, y := ParseAll(xs).value, ParseAll(init).value;
        assert x + y + [last.value] == x + (y + [last.value]);
      }
    }
  }

  lemma Peel(whole: string, first: string, rest: string, path: string)
    requires whole == first + "/" + rest && forall i :: 0 <= i < |first| ==> first[i] != '/'
    ensures Split(whole + path) == [first] + Split(rest + path)
  {
    assert whole + path == first + "/" + (rest + path);
    SplitPlain(first, rest + path);
  }

  lemma RootPeels(path: string)
    ensures Split("m/44'/60'/0'/0/" + path) == ["m"] + (["44'", "60'"] + (["0'", "0"] + Split(path)))
  {
    hide Split;
    Peel("m/44'/60'/0'/0/", "m", "44'/60'/0'/0/", path);
    HighPeels(path);
    LowPeels(path);
  }

  lemma HighPeels(path: string)
    ensures Split("44'/60'/0'/0/" + path) == ["44'", "60'"] + Split("0'/0/" + path)
  {
    hide Split;
    Peel("44'/60'/0'/0/", "44'", "60'/0'/0/", path);
    Peel("60'/0'/0/", "60'", "0'/0/", path);
  }

  lemma LowPeels(path: string)
    ensures Split("0'/0/" + path) == ["0'", "0"] + Split(path)
  {
    hide Split;
    Peel("0'/0/", "0'", "0/", path);
    Peel("0/", "0", "", path);
    assert "" + path == path;
  }

  lemma RootParts()
    ensures ParseAll(["44'", "60'"] + ["0'", "0"]) == Ok([HARDENED + 44, HARDENED + 60, HARDENED, 0])
  {
    hide ParseComponent, ParseAll, Decimal;
    TwoDigits(44);
    TwoDigits(60);
    OneDigit(0);
    ParsePair("44'", "60'", HARDENED + 44, HARDENED + 60);
    ParsePair("0'", "0", HARDENED, 0);
    ParseAllAppends(["44'", "60'"], ["0'", "0"]);
    var high, low: seq<Component> := [HARDENED + 44, HARDENED + 60], [HARDENED, 0];
    assert high + low == [HARDENED + 44, HARDENED + 60, HARDENED, 0];
  }

  lemma ParsePair(s: string, t: string, c: Component, d: Component)
    requires s == ShowComponent(c) && t == ShowComponent(d)
    ensures ParseAll([s, t]) == Ok([c, d])
  {
    hide ParseComponent, ShowComponent, ParseAll;
    ComponentRoundTrip(c);
    ComponentRoundTrip(d);
    NoneParsed();
    var none: seq<Component> := [];
    assert none + [c] == [c];
    ParseLast([], s, c);
    assert [] + [s] == [s];
    ParseLast([s], t, d);
    assert [s] + [t] == [s, t] && [c] + [d] == [c, d];
  }

  lemma NoneParsed()
    ensures ParseAll([]) == ParseAll(ShowAll([])) == Ok([])
  {
  }

  lemma ParseLast(parts: seq<string>, s: string, c: Component)
    requires ParseAll(parts).Ok? && ParseComponent(s) == Ok(c)
    ensures ParseAll(parts + [s]) == Ok(ParseAll(parts).value + [c])
  {
    hide ParseComponent;
    assert (parts + [s])[..|parts|] == parts;
  }

  lemma TwoDigits(n: nat)
    requires 10 <= n < 100
    ensures Decimal(n) == [('0' as int + n / 10) as char, ('0' as int + n % 10) as char]
  {
  }

  lemma OneDigit(n: nat)
    requires n < 10
    ensures Decimal(n) == [('0' as int + n) as char]
  {
  }

  /** Any path that starts neither with a slash nor with m means the same below the default root. */
  lemma RelativeIsBelowRoot(path: string)
    requires TrimSpace(Split(path)[0]) !in ["", "m"]
    ensures Parse(path) == Parse("m/44'/60'/0'/0/" + path)
  {
    hide ParseAll, TrimSpace, Split;
    RootPeels(path);
    RootParts();
    var root := ["44'", "60'"] + ["0'", "0"];
    var parts := Split("m/44'/60'/0'/0/" + path);
    PlainTrim("m");
    assert parts[1..] == root + Split(path);
    ParseAllAppends(root, Split(path));
  }

  // Numerals of other bases.

  function Digit(d: nat): char
    requires d < 16
  {
    if d < 10 then ('0' as int + d) as char else ('a' as int + d - 10) as char
  }

  lemma DivMod(n: nat, base: nat)
    requires base >= 2
    ensures n / base * base + n % base == n && n % base < base && (n >= base ==> n / base < n)
  {
  }

  /** The numeral of a number. */
  function Numeral(n: nat, base: nat): (s: string)
    requires 2 <= base <= 16
    ensures s != ""
  {
    DivMod(n, base);
    if n < base then [Digit(n)] else Numeral(n / base, base) + [Digit(n % base)]
  }

  lemma DigitRead(d: nat)
    requires d < 16
    ensures DigitValue(Digit(d)) == d && Digit(d) != '_'
  {
  }

  lemma {:induction false} NumeralEnds(n: nat, base: nat)
    requires 2 <= base <= 16
    ensures Numeral(n, base)[|Numeral(n, base)| - 1] != '_'
  {
    hide Digit;
    DivMod(n, base);
    DigitRead(n % base);
    if n < base {
      DigitRead(n);
    }
  }

  lemma {:induction false} DigitsNumeral(n: nat, base: nat)
    requires 2 <= base <= 16
    ensures Digits(Numeral(n, base), base, true) == Some(n)
    decreases n
  {
    hide Digit, DigitValue;
    DivMod(n, base);
    var s := Numeral(n, base);
    if n >= base {
      var high, d := Numeral(n / base, base), n % base;
      DigitsNumeral(n / base, base);
      NumeralEnds(n / base, base);
      DigitRead(d);
      DigitsStep(high, Digit(d), base);
    } else {
      DigitRead(n);
      assert s[..0] == "";
    }
  }

  lemma DigitsStep(high: string, c: char, base: nat)
    requires high != "" && high[|high| - 1] != '_' && DigitValue(c) < base && Digits(high, base, true).Some?
    ensures Digits(high + [c], base, true) == Some(Digits(high, base, true).value * base + DigitValue(c))
  {
    var s := high + [c];
    assert s[..|s| - 1] == high && s[|s| - 1] == c;
  }

  /** Every number can be given in hexadecimal, octal (in two ways) and binary, signed or not. */
  lemma ScanNumerals(n: nat)
    ensures ScanInt("0x" + Numeral(n, 16)) == ScanInt("0X" + Numeral(n, 16)) == Some(n)
    ensures ScanInt("0o" + Numeral(n, 8)) == ScanInt("0O" + Numeral(n, 8)) == ScanInt("0" + Numeral(n, 8)) == Some(n)
    ensures ScanInt("0b" + Numeral(n, 2)) == ScanInt("0B" + Numeral(n, 2)) == Some(n)
    ensures ScanInt("+" + Decimal(n)) == Some(n)
    ensures var v := ScanInt("-" + Decimal(n)); v.Some? && v.value + n == 0
  {
    hide Digits, Numeral, ScanInt, Decimal;
    ScanPrefixed("0x", n, 16);
    ScanPrefixed("0X", n, 16);
    ScanPrefixed("0o", n, 8);
    ScanPrefixed("0O", n, 8);
    ScanPrefixed("0b", n, 2);
    ScanPrefixed("0B", n, 2);
    ScanOctal(n);
    ScanSigned(n);
  }

  lemma ScanPrefixed(prefix: string, n: nat, base: nat)
    requires (prefix in ["0x", "0X"] && base == 16) || (prefix in ["0o", "0O"] && base == 8)
             || (prefix in ["0b", "0B"] && base == 2)
    ensures ScanInt(prefix + Numeral(n, base)) == Some(n)
  {
    hide Digits;
    var s := prefix + Numeral(n, base);
    assert s[2..] == Numeral(n, base) && s[0] == '0' && s[1] == prefix[1];
    DigitsNumeral(n, base);
  }

  lemma OctalDigit(d: nat)
    requires d < 8
    ensures '0' <= Digit(d) <= '7'
  {
  }

  lemma {:induction false} OctalDigits(n: nat)
    ensures forall i :: 0 <= i < |Numeral(n, 8)| ==> '0' <= Numeral(n, 8)[i] <= '7'
  {
    hide Digit;
    DivMod(n, 8);
    OctalDigit(n % 8);
    if n >= 8 {
      OctalDigits(n / 8);
    }
  }

  lemma ScanOctal(n: nat)
    ensures ScanInt("0" + Numeral(n, 8)) == Some(n)
  {
    hide Digits;
    var s := "0" + Numeral(n, 8);
    OctalDigits(n);
    assert s[1..] == Numeral(n, 8) && s[0] == '0' && '0' <= s[1] <= '7';
    DigitsNumeral(n, 8);
  }

  lemma ScanSigned(n: nat)
    ensures ScanInt("+" + Decimal(n)) == Some(n)
    ensures var v := ScanInt("-" + Decimal(n)); v.Some? && v.value + n == 0
  {
    ScanDecimal(n);
    assert ("+" + Decimal(n))[1..] == Decimal(n) && ("-" + Decimal(n))[1..] == Decimal(n);
    assert ScanInt(Decimal(n)) == Some(n) && Decimal(n)[0] != '-' && Decimal(n)[0] != '+';
  }
}
