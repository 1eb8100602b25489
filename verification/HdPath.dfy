/** Derivation paths of hierarchical deterministic wallets: the parser and the printer. */
module HdPath {
  const HARDENED: nat := 0x8000_0000
  const MAX_UINT32: nat := 0xFFFF_FFFF

  type Uint32 = n: nat | n <= MAX_UINT32

  type Path = seq<Uint32>

  const DEFAULT_ROOT: Path := [HARDENED + 44, HARDENED + 60, HARDENED, 0]

  datatype Error = EmptyPath | AmbiguousPath | InvalidComponent | OutOfRange | OutOfHardenedRange

  datatype Result<+T> = Ok(value: T) | Err(error: Error)

  // ----- Strings

  /** White space as Unicode has it. */
  predicate IsSpace(c: char) {
    || c in {'\t', '\n', '\U{0B}', '\U{0C}', '\r', ' ', '\U{85}', '\U{A0}', '\U{1680}'}
    || '\U{2000}' <= c <= '\U{200A}'
    || c in {'\U{2028}', '\U{2029}', '\U{202F}', '\U{205F}', '\U{3000}'}
  }

  function TrimLeft(s: string): string {
    if s != [] && IsSpace(s[0]) then TrimLeft(s[1..]) else s
  }

  function TrimRight(s: string): string {
    if s != [] && IsSpace(s[|s| - 1]) then TrimRight(s[..|s| - 1]) else s
  }

  function TrimSpace(s: string): string {
    TrimRight(TrimLeft(s))
  }

  /** The parts of a string between separators; there is always at least one. */
  function Split(s: string, sep: char): (parts: seq<string>)
    ensures |parts| > 0
  {
    if s == [] then [[]]
    else
      var rest := Split(s[1..], sep);
      if s[0] == sep then [[]] + rest else [[s[0]] + rest[0]] + rest[1..]
  }

  // ----- Numbers

  function DigitValue(c: char): nat {
    if '0' <= c <= '9' then (c - '0') as nat
    else if 'a' <= c <= 'z' then (c - 'a') as nat + 10
    else if 'A' <= c <= 'Z' then (c - 'A') as nat + 10
    else 37
  }

  /** Digits in a base, with single underscores between digits or after a prefix. afterDigit says whether an underscore
      may come next, some whether there was a digit. */
  function Digits(s: string, base: nat, value: nat, afterDigit: bool, some: bool): Result<nat> {
    if s == [] then if afterDigit && some then Ok(value) else Err(InvalidComponent)
    else if s[0] == '_' then if afterDigit then Digits(s[1..], base, value, false, some) else Err(InvalidComponent)
    else if DigitValue(s[0]) < base then Digits(s[1..], base, value * base + DigitValue(s[0]), true, true)
    else Err(InvalidComponent)
  }

  /** A number without sign: decimal, or with a prefix for base 2, 8 or 16. */
  function Unsigned(s: string): Result<nat> {
    if s == "0" then Ok(0)
    else if |s| > 1 && s[0] == '0' then
      if s[1] in "bB" then Digits(s[2..], 2, 0, true, false)
      else if s[1] in "oO" then Digits(s[2..], 8, 0, true, false)
      else if s[1] in "xX" then Digits(s[2..], 16, 0, true, false)
      else Digits(s[1..], 8, 0, true, false)
    else Digits(s, 10, 0, false, false)
  }

  /** An integer with an optional sign; the whole string must be one. */
  function Number(s: string): Result<int> {
    if s == [] then Err(InvalidComponent)
    else
      var n := Unsigned(if s[0] in "+-" then s[1..] else s);
      if n.Err? then Err(n.error) else Ok(if s[0] == '-' then 0 - n.value else n.value)
  }

  function DigitChar(d: nat): char
    requires d < 16
  {
    if d < 10 then '0' + d as char else 'a' + (d - 10) as char
  }

  function InBase(n: nat, base: nat): string
    requires 2 <= base <= 16
  {
    if n < base then [DigitChar(n)] else InBase(n / base, base) + [DigitChar(n % base)]
  }

  function Decimal(n: nat): string {
    InBase(n, 10)
  }

  // ----- Parsing

  predicate HasSuffix(s: string, c: char) {
    s != [] && s[|s| - 1] == c
  }

  function ParseComponent(text: string): Result<Uint32> {
    var trimmed := TrimSpace(text);
    var hardened := HasSuffix(trimmed, '\'');
    var digits := if hardened then TrimSpace(trimmed[..|trimmed| - 1]) else trimmed;
    var n := Number(digits);
    var offset := if hardened then HARDENED else 0;
    if n.Err? then Err(n.error)
    else if n.value < 0 || n.value > MAX_UINT32 - offset then Err(if hardened then OutOfHardenedRange else OutOfRange)
    else Ok(offset + n.value)
  }

  function ParseAll(components: seq<string>, result: Path): Result<Path> {
    if components == [] then Ok(result)
    else
      var v := ParseComponent(components[0]);
      if v.Err? then Err(v.error) else ParseAll(components[1..], result + [v.value])
  }

  function Parse(text: string): Result<Path> {
    var components := Split(text, '/');
    if TrimSpace(components[0]) == "" then Err(AmbiguousPath)
    else if TrimSpace(components[0]) == "m" then
      if |components| == 1 then Err(EmptyPath) else ParseAll(components[1..], [])
    else ParseAll(components, DEFAULT_ROOT)
  }

  // ----- Printing

  function PrintComponent(c: Uint32): string {
    if c >= HARDENED then Decimal(c - HARDENED) + "'" else Decimal(c)
  }

  function Print(path: Path): string {
    if path == [] then "m" else Print(path[..|path| - 1]) + "/" + PrintComponent(path[|path| - 1])
  }

  // ----- The loops of the source

  method ParseDerivationPath(path: string) returns (r: Result<Path>)
    ensures r == Parse(path)
  {
    hide TrimSpace, ParseComponent;
    var result: Path := [];
    var components := Split(path, '/');
    if TrimSpace(components[0]) == "" {
      return Err(AmbiguousPath);
    } else if TrimSpace(components[0]) == "m" {
      components := components[1..];
    } else {
      result := DEFAULT_ROOT;
    }
    if |components| == 0 {
      return Err(EmptyPath);
    }
    for i := 0 to |components|
      invariant Parse(path) == ParseAll(components[i..], result)
    {
      var v := ParseComponent(components[i]);
      assert components[i..][1..] == components[i + 1..];
      if v.Err? {
        return Err(v.error);
      }
      result := result + [v.value];
    }
    return Ok(result);
  }

  method String(path: Path) returns (result: string)
    ensures result == Print(path)
  {
    hide Decimal;
    result := "m";
    for i := 0 to |path|
      invariant result == Print(path[..i])
    {
      assert path[..i + 1][..i] == path[..i];
      var component := path[i];
      var hardened := false;
      if component >= HARDENED {
        component, hardened := component - HARDENED, true;
      }
      result := result + "/" + Decimal(component);
      if hardened {
        result := result + "'";
      }
    }
    assert path[..|path|] == path;
  }

  // ----- Round trip

  lemma {:induction false} DigitsSnoc(s: string, c: char, base: nat, value: nat, afterDigit: bool, some: bool)
    requires Digits(s, base, value, afterDigit, some).Ok? && c != '_' && DigitValue(c) < base
    ensures Digits(s + [c], base, value, afterDigit, some)
            == Ok(Digits(s, base, value, afterDigit, some).value * base + DigitValue(c))
  {
    hide DigitValue;
    if s == [] {
      assert s + [c] == [c];
      assert [c][1..] == [];
    } else {
      assert (s + [c])[1..] == s[1..] + [c];
      if s[0] == '_' {
        DigitsSnoc(s[1..], c, base, value, false, some);
      } else {
        DigitsSnoc(s[1..], c, base, value * base + DigitValue(s[0]), true, true);
      }
    }
  }

  /** A single underscore after a digit changes nothing if a digit follows, and anything else after it is refused. */
  lemma {:induction false} UnderscoreSeparates(s: string, t: string, base: nat, value: nat, afterDigit: bool,
                                               some: bool)
    requires Digits(s, base, value, afterDigit, some).Ok?
    ensures Digits(s + "_" + t, base, value, afterDigit, some)
            == if t == [] || t[0] == '_' then Err(InvalidComponent) else Digits(s + t, base, value, afterDigit, some)
  {
    hide DigitValue;
    if s == [] {
      assert s + "_" + t == "_" + t && s + t == t;
      assert ("_" + t)[1..] == t;
    } else {
      assert (s + "_" + t)[1..] == s[1..] + "_" + t && (s + t)[1..] == s[1..] + t;
      if s[0] == '_' {
        UnderscoreSeparates(s[1..], t, base, value, false, some);
      } else {
        UnderscoreSeparates(s[1..], t, base, value * base + DigitValue(s[0]), true, true);
      }
    }
  }

  predicate IsDigit(c: char) {
    '0' <= c <= '9'
  }

  lemma DigitCharValue(d: nat)
    requires d < 16
    ensures DigitValue(DigitChar(d)) == d && DigitChar(d) != '_'
    ensures d < 10 ==> IsDigit(DigitChar(d))
    ensures d > 0 ==> DigitChar(d) != '0'
  {
  }

  lemma DivideStep(n: nat, base: nat)
    requires 2 <= base <= n
    ensures 0 < n / base < n && n % base < base && n / base * base + n % base == n
  {
  }

  /** A number printed in a base has no leading zero unless it is zero, and scans back to itself, after a prefix or
      without; up to base ten it has decimal digits only. */
  lemma {:induction false} BaseScans(n: nat, base: nat, afterPrefix: bool)
    requires 2 <= base <= 16
    ensures var s := InBase(n, base);
            && s != [] && (base <= 10 ==> forall c | c in s :: IsDigit(c))
            && (n > 0 ==> s[0] != '0')
            && Digits(s, base, 0, afterPrefix, false) == Ok(n)
  {
    hide DigitValue, IsDigit, DigitChar;
    if n < base {
      DigitCharValue(n);
      assert InBase(n, base)[1..] == [];
      assert 0 * base == 0;
    } else {
      hide Digits;
      DivideStep(n, base);
      BaseScans(n / base, base, afterPrefix);
      DigitCharValue(n % base);
      DigitsSnoc(InBase(n / base, base), DigitChar(n % base), base, 0, afterPrefix, false);
    }
  }

  lemma DecimalScans(n: nat)
    ensures var s := Decimal(n);
            && s != [] && (forall c | c in s :: IsDigit(c))
            && (n > 0 ==> s[0] != '0')
            && Digits(s, 10, 0, false, false) == Ok(n)
  {
    BaseScans(n, 10, false);
  }

  lemma NumberOfDecimal(n: nat)
    ensures Number(Decimal(n)) == Ok(n)
  {
    DecimalScans(n);
    var s := Decimal(n);
    assert IsDigit(s[0]);
    if n == 0 {
      assert s == "0";
    }
  }

  predicate IsPrefix(c: char, base: nat) {
    (base == 16 && c in "xX") || (base == 8 && c in "oO") || (base == 2 && c in "bB")
  }

  /** A number may also be written in base 16, 8 or 2 after a prefix such as 0x, or in base 8 after a zero. */
  lemma PrefixMeansBase(n: nat, c: char, base: nat)
    requires IsPrefix(c, base)
    ensures Number(['0', c] + InBase(n, base)) == Ok(n)
    ensures Number(['0'] + InBase(n, 8)) == Ok(n)
  {
    hide InBase, Digits;
    BaseScans(n, base, true);
    BaseScans(n, 8, true);
    var long, short := ['0', c] + InBase(n, base), ['0'] + InBase(n, 8);
    assert long[0] == '0' && long[1] == c && long[2..] == InBase(n, base);
    assert IsDigit(short[1]) && short[1..] == InBase(n, 8);
  }

  lemma TrimKeeps(s: string)
    requires s != [] && !IsSpace(s[0]) && !IsSpace(s[|s| - 1])
    ensures TrimSpace(s) == s
  {
  }

  predicate AllSpace(s: string) {
    forall c | c in s :: IsSpace(c)
  }

  /** Text without white space at its ends. */
  predicate Tight(s: string) {
    s != [] && !IsSpace(s[0]) && !IsSpace(s[|s| - 1])
  }

  lemma {:induction false} TrimLeftDrops(left: string, s: string)
    requires AllSpace(left) && (s == [] || !IsSpace(s[0]))
    ensures TrimLeft(left + s) == s
  {
    hide IsSpace;
    if left == [] {
      assert left + s == s;
    } else {
      assert left[0] in left;
      assert (left + s)[1..] == left[1..] + s;
      TrimLeftDrops(left[1..], s);
    }
  }

  lemma {:induction false} TrimRightDrops(s: string, right: string)
    requires AllSpace(right) && (s == [] || !IsSpace(s[|s| - 1]))
    ensures TrimRight(s + right) == s
  {
    hide IsSpace;
    if right == [] {
      assert s + right == s;
    } else {
      assert right[|right| - 1] in right;
      assert (s + right)[..|s + right| - 1] == s + right[..|right| - 1];
      TrimRightDrops(s, right[..|right| - 1]);
    }
  }

  lemma TrimDrops(left: string, s: string, right: string)
    requires AllSpace(left) && AllSpace(right) && Tight(s)
    ensures TrimSpace(left + s + right) == s
  {
    hide IsSpace, TrimLeft, TrimRight;
    assert left + s + right == left + (s + right);
    TrimLeftDrops(left, s + right);
    TrimRightDrops(s, right);
  }

  lemma DigitsAreNotSpace(c: char)
    requires IsDigit(c)
    ensures !IsSpace(c) && c != '\'' && c != '/'
  {
  }

  lemma QuoteIsNotSpace()
    ensures !IsSpace('\'') && !IsSpace('m') && !IsSpace('+') && !IsSpace('-')
  {
  }

  lemma ComponentRoundTrip(c: Uint32)
    ensures ParseComponent(PrintComponent(c)) == Ok(c)
    ensures '/' !in PrintComponent(c)
  {
    hide Decimal, Number, TrimSpace, IsSpace;
    var n := if c >= HARDENED then c - HARDENED else c;
    var digits := Decimal(n);
    DecimalScans(n);
    NumberOfDecimal(n);
    DigitsAreNotSpace(digits[0]);
    DigitsAreNotSpace(digits[|digits| - 1]);
    TrimKeeps(digits);
    if c >= HARDENED {
      var text := digits + "'";
      QuoteIsNotSpace();
      TrimKeeps(text);
      assert text[..|text| - 1] == digits;
    }
  }

  /** White space around a component, and before the mark of a hardened one, changes nothing. */
  lemma SpaceIsIgnored(left: string, s: string, middle: string, right: string)
    requires AllSpace(left) && AllSpace(middle) && AllSpace(right) && Tight(s)
    ensures ParseComponent(left + s + right) == ParseComponent(s)
    ensures ParseComponent(left + (s + middle + "'") + right) == ParseComponent(s + "'")
  {
    hide IsSpace, TrimSpace, Number;
    var none := "";
    QuoteIsNotSpace();
    TrimDrops(left, s, right);
    TrimDrops(none, s, none);
    assert none + s + none == s;
    var marked := s + middle + "'";
    TrimDrops(left, marked, right);
    assert marked[..|marked| - 1] == none + s + middle;
    TrimDrops(none, s, middle);
    var plain := s + "'";
    TrimDrops(none, plain, none);
    assert none + plain + none == plain;
    assert plain[..|plain| - 1] == none + s + none;
  }

  /** A sign is accepted, but no number below zero. */
  lemma SignedRange(n: nat)
    ensures ParseComponent("+" + Decimal(n)) == ParseComponent(Decimal(n))
    ensures ParseComponent("-" + Decimal(n)) == if n == 0 then Ok(0) else Err(OutOfRange)
  {
    hide Decimal, TrimSpace, IsSpace, Digits;
    var digits, plus, minus := Decimal(n), "+" + Decimal(n), "-" + Decimal(n);
    DecimalScans(n);
    NumberOfDecimal(n);
    DigitsAreNotSpace(digits[0]);
    DigitsAreNotSpace(digits[|digits| - 1]);
    QuoteIsNotSpace();
    TrimKeeps(digits);
    TrimKeeps(plus);
    TrimKeeps(minus);
    assert plus[1..] == digits && minus[1..] == digits;
    assert IsDigit(digits[0]);
  }

  /** A plain number is accepted up to the largest 32-bit value, and a hardened one up to half of that. */
  lemma AcceptedRange(n: nat)
    ensures ParseComponent(Decimal(n)) == if n <= MAX_UINT32 then Ok(n) else Err(OutOfRange)
    ensures ParseComponent(Decimal(n) + "'") == if n < HARDENED then Ok(HARDENED + n) else Err(OutOfHardenedRange)
  {
    hide Decimal, Number, TrimSpace, IsSpace;
    var digits, text := Decimal(n), Decimal(n) + "'";
    DecimalScans(n);
    NumberOfDecimal(n);
    DigitsAreNotSpace(digits[0]);
    DigitsAreNotSpace(digits[|digits| - 1]);
    TrimKeeps(digits);
    QuoteIsNotSpace();
    TrimKeeps(text);
    assert text[..|text| - 1] == digits;
  }

  lemma {:induction false} SplitWhole(s: string, sep: char)
    requires sep !in s
    ensures Split(s, sep) == [s]
  {
    if s != [] {
      SplitWhole(s[1..], sep);
      assert [s[0]] + s[1..] == s;
    }
  }

  lemma {:induction false} SplitSnoc(s: string, sep: char, part: string)
    requires sep !in part
    ensures Split(s + [sep] + part, sep) == Split(s, sep) + [part]
  {
    if s == [] {
      SplitWhole(part, sep);
      assert (s + [sep] + part)[1..] == part;
    } else {
      SplitSnoc(s[1..], sep, part);
      assert (s + [sep] + part)[1..] == s[1..] + [sep] + part;
    }
  }

  function Components(path: Path): seq<string> {
    if path == [] then [] else Components(path[..|path| - 1]) + [PrintComponent(path[|path| - 1])]
  }

  lemma {:induction false} PrintSplits(path: Path)
    ensures Split(Print(path), '/') == ["m"] + Components(path)
  {
    if path == [] {
      SplitWhole("m", '/');
    } else {
      PrintSplits(path[..|path| - 1]);
      ComponentRoundTrip(path[|path| - 1]);
      SplitSnoc(Print(path[..|path| - 1]), '/', PrintComponent(path[|path| - 1]));
    }
  }

  lemma {:induction false} ParseAllSnoc(components: seq<string>, text: string, result: Path)
    requires ParseAll(components, result).Ok? && ParseComponent(text).Ok?
    ensures ParseAll(components + [text], result)
            == Ok(ParseAll(components, result).value + [ParseComponent(text).value])
  {
    hide ParseComponent;
    if components == [] {
      assert components + [text] == [text];
      assert [text][1..] == [];
    } else {
      assert (components + [text])[1..] == components[1..] + [text];
      ParseAllSnoc(components[1..], text, result + [ParseComponent(components[0]).value]);
    }
  }

  lemma {:induction false} ComponentsParse(path: Path)
    ensures ParseAll(Components(path), []) == Ok(path)
  {
    hide ParseComponent, PrintComponent;
    if path != [] {
      ComponentsParse(path[..|path| - 1]);
      ComponentRoundTrip(path[|path| - 1]);
      ParseAllSnoc(Components(path[..|path| - 1]), PrintComponent(path[|path| - 1]), []);
      assert path[..|path| - 1] + [path[|path| - 1]] == path;
    }
  }

  lemma {:induction false} ParseAllLength(components: seq<string>, result: Path)
    ensures ParseAll(components, result).Ok? ==> |ParseAll(components, result).value| == |result| + |components|
  {
    hide ParseComponent;
    if components != [] {
      var v := ParseComponent(components[0]);
      if v.Ok? {
        ParseAllLength(components[1..], result + [v.value]);
      }
    }
  }

  lemma {:induction false} ComponentsLength(path: Path)
    ensures |Components(path)| == |path|
  {
    if path != [] {
      ComponentsLength(path[..|path| - 1]);
    }
  }

  lemma {:induction false} SplitCons(part: string, sep: char, rest: string)
    requires sep !in part
    ensures Split(part + [sep] + rest, sep) == [part] + Split(rest, sep)
  {
    var s := part + [sep] + rest;
    if part == [] {
      assert s[1..] == rest;
    } else {
      SplitCons(part[1..], sep, rest);
      assert s[1..] == part[1..] + [sep] + rest;
      assert [part[0]] + part[1..] == part;
    }
  }

  lemma ParseAllCons(text: string, v: Uint32, rest: seq<string>, result: Path)
    requires ParseComponent(text) == Ok(v)
    ensures ParseAll([text] + rest, result) == ParseAll(rest, result + [v])
  {
    hide ParseComponent;
    assert ([text] + rest)[1..] == rest;
  }

  lemma DefaultRootParses(rest: seq<string>)
    ensures ParseAll(["44'"] + (["60'"] + (["0'"] + (["0"] + rest))), []) == ParseAll(rest, DEFAULT_ROOT)
  {
    hide ParseComponent, ParseAll;
    assert Decimal(44) == "44" && Decimal(60) == "60" && Decimal(0) == "0";
    AcceptedRange(44);
    AcceptedRange(60);
    AcceptedRange(0);
    assert "44" + "'" == "44'" && "60" + "'" == "60'" && "0" + "'" == "0'";
    var p0: Path := [];
    var p1, p2, p3 := p0 + [HARDENED + 44], p0 + [HARDENED + 44] + [HARDENED + 60], DEFAULT_ROOT[..3];
    assert p2 + [HARDENED] == p3 && p3 + [0] == DEFAULT_ROOT;
    ParseAllCons("44'", HARDENED + 44, ["60'"] + (["0'"] + (["0"] + rest)), p0);
    ParseAllCons("60'", HARDENED + 60, ["0'"] + (["0"] + rest), p1);
    ParseAllCons("0'", HARDENED, ["0"] + rest, p2);
    ParseAllCons("0", 0, rest, p3);
  }

  lemma SplitDefaultRoot(text: string)
    ensures Split("m/44'/60'/0'/0/" + text, '/')
            == ["m"] + (["44'"] + (["60'"] + (["0'"] + (["0"] + Split(text, '/')))))
  {
    hide Split;
    var t4 := "0" + ['/'] + text;
    var t3 := "0'" + ['/'] + t4;
    var t2 := "60'" + ['/'] + t3;
    var t1 := "44'" + ['/'] + t2;
    SplitCons("0", '/', text);
    SplitCons("0'", '/', t4);
    SplitCons("60'", '/', t3);
    SplitCons("44'", '/', t2);
    SplitCons("m", '/', t1);
    assert "m" + ['/'] + t1 == "m/44'/60'/0'/0/" + text;
  }

  /** A relative path, one that starts neither with a separator nor with m, stands for the same path below the default
      root. */
  lemma RelativeToDefaultRoot(text: string)
    requires var first := TrimSpace(Split(text, '/')[0]); first != "" && first != "m"
    ensures Parse(text) == Parse("m/44'/60'/0'/0/" + text)
  {
    hide ParseAll, Split, IsSpace;
    SplitDefaultRoot(text);
    DefaultRootParses(Split(text, '/'));
    QuoteIsNotSpace();
    TrimKeeps("m");
    var rest := ["44'"] + (["60'"] + (["0'"] + (["0"] + Split(text, '/'))));
    assert (["m"] + rest)[1..] == rest;
  }

  /** Parsing a printed path gives back the path, over all 32-bit components; except for the empty path, which prints to
      a text that is refused. */
  lemma RoundTrip(path: Path)
    ensures Parse(Print(path)) == if path == [] then Err(EmptyPath) else Ok(path)
  {
    hide ParseAll, Print, Components, Split;
    PrintSplits(path);
    ComponentsParse(path);
    ComponentsLength(path);
    QuoteIsNotSpace();
    TrimKeeps("m");
    assert (["m"] + Components(path))[1..] == Components(path);
  }

  /** Whatever text is accepted, printing its path and parsing that again changes nothing. */
  lemma ReparseIsStable(text: string)
    requires Parse(text).Ok?
    ensures Parse(text).value != []
    ensures Parse(Print(Parse(text).value)) == Parse(text)
  {
    hide ParseAll, Print, Split, TrimSpace;
    var components := Split(text, '/');
    ParseAllLength(components, DEFAULT_ROOT);
    ParseAllLength(components[1..], []);
    RoundTrip(Parse(text).value);
  }
}
