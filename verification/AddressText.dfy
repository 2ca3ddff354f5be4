/** Addresses as database records write them, and the parser that reads them back
  (ADSAddress.cpp, and the whitespace split in ADSPortDriver::parseDeviceAddress). */
module AddressText {
  import opened Types

  datatype AddressSpec = AddressSpec(
    dataType: AdsDataType,
    nelem: uint32,
    operation: Operation,
    adsPort: uint16,
    variableName: string)

  // ---------- searching and splitting strings ----------

  /** Index of the first occurrence of `t` in `s` at or after `from` (`std::string::find`). */
  function FindFrom(s: string, t: string, from: nat): (at: Option<nat>)
    requires from <= |s|
    ensures at.Some? ==> from <= at.value <= |s| && t <= s[at.value..]
    ensures at.Some? ==> forall k | from <= k < at.value :: !(t <= s[k..])
    ensures at.None? ==> forall k | from <= k <= |s| :: !(t <= s[k..])
    decreases |s| - from
  {
    if t <= s[from..] then Some(from)
    else if from == |s| then None
    else FindFrom(s, t, from + 1)
  }

  function Find(s: string, t: string): (at: Option<nat>)
    ensures at.Some? ==> at.value <= |s| && t <= s[at.value..]
  {
    FindFrom(s, t, 0)
  }

  predicate IsBlank(c: char) { c == ' ' || '\t' <= c <= '\r' }

  predicate BlankFree(s: string) { forall i | 0 <= i < |s| :: !IsBlank(s[i]) }

  /** The whitespace-separated words of `s`, where `word` is the part of the current word
    already read (repeated `stream >> arg`). */
  function Words(s: string, word: string): seq<string>
    decreases |s|
  {
    if s == [] then (if word == [] then [] else [word])
    else if IsBlank(s[0]) then (if word == [] then [] else [word]) + Words(s[1..], [])
    else Words(s[1..], word + [s[0]])
  }

  // ---------- numbers ----------

  function DigitValue(c: char): Option<nat>
  {
    if '0' <= c <= '9' then Some(c as nat - '0' as nat)
    else if 'a' <= c <= 'f' then Some(c as nat - 'a' as nat + 10)
    else if 'A' <= c <= 'F' then Some(c as nat - 'A' as nat + 10)
    else None
  }

  predicate IsDigit(c: char, radix: nat)
  {
    DigitValue(c).Some? && DigitValue(c).value < radix
  }

  function Shift(acc: nat, radix: nat, digit: nat): nat { acc * radix + digit }

  /** Value of the digits of `s`, continuing from `acc`, up to the first non-digit. */
  function DigitsFrom(s: string, radix: nat, acc: nat): nat
    decreases |s|
  {
    if s == [] || !IsDigit(s[0], radix) then acc
    else DigitsFrom(s[1..], radix, Shift(acc, radix, DigitValue(s[0]).value))
  }

  predicate IsSign(c: char) { c == '+' || c == '-' }

  /** `std::stol` in base 10: a sign, then digits; no leading digit is an error, and so is a value over 64 bits. */
  function Stol(s: string): Option<int>
  {
    var digits := if s != [] && IsSign(s[0]) then s[1..] else s;
    if digits == [] || !IsDigit(digits[0], 10) then None
    else
      var value: int := DigitsFrom(digits, 10, 0);
      if s[0] == '-' then (if value <= 0x8000_0000_0000_0000 then Some(-value) else None)
      else if value < 0x8000_0000_0000_0000 then Some(value) else None
  }

  /** `std::stol` in base 16, behind the `0x`: without a digit there, the `0` of it is the number. */
  function StolHex(s: string): Option<int>
  {
    if s == [] || !IsDigit(s[0], 16) then Some(0)
    else
      var value := DigitsFrom(s, 16, 0);
      if value < 0x8000_0000_0000_0000 then Some(value) else None
  }

  function ParseDecOrHexInt(s: string): Option<uint32>
  {
    var value := if "0x" <= s then StolHex(s[2..]) else Stol(s);
    if value.None? then None else Some(Wrap32(value.value))
  }

  lemma DivModFacts(n: nat, radix: nat)
    requires 2 <= radix
    ensures n == n / radix * radix + n % radix
    ensures 0 <= n % radix < radix
    ensures n >= radix ==> 0 <= n / radix < n
    ensures n < radix ==> n % radix == n
  {
    var q := n / radix;
    if n >= radix {
      assert 1 <= q;
      assert 2 * q <= q * radix;
    }
  }

  lemma DigitValueOf(d: nat)
    requires d < 16
    ensures DigitValue(DIGITS[d]) == Some(d)
  {
  }

  const DIGITS := "0123456789abcdef"

  /** `n` written out, most significant digit first. */
  function Digits(n: nat, radix: nat): (s: string)
    requires 2 <= radix <= 16
    ensures s != [] && forall i | 0 <= i < |s| :: IsDigit(s[i], radix)
    decreases n
  {
    DivModFacts(n, radix);
    DigitValueOf(n % radix);
    if n < radix then [DIGITS[n]] else Digits(n / radix, radix) + [DIGITS[n % radix]]
  }

  // ---------- the parser ----------

  /** The text after the first `=`, or nothing. */
  function ParseParamValue(s: string): string
  {
    var at := Find(s, "=");
    if at.None? then "" else s[at.value + 1..]
  }

  function ParseDataType(function_: string): Option<AdsDataType>
  {
    var name :=
      if Find(function_, "[]").Some? then function_[..Find(function_, "[]").value]
      else if Find(function_, "_digi").Some? then function_[..Find(function_, "_digi").value]
      else function_;
    if name in DATA_TYPES then Some(DATA_TYPES[name]) else None
  }

  function ParseNelem(s: string): Option<uint32>
  {
    var at := Find(s, "N=");
    var start := if at.Some? then at.value + 2 else 1;  // `npos + 2` is 1
    if start > |s| then Some(0)
    else
      var value := s[start..];
      if value == "" then Some(0)
      else
        var nelem := Stol(value);
        if nelem.None? || nelem.value < 1 || nelem.value > 0xFFFF_FFFF then None else Some(nelem.value)
  }

  function ParseOperation(s: string): Option<Operation>
  {
    if s == "R" then Some(Read) else if s == "W" then Some(Write) else None
  }

  function ParseAdsPort(s: string): Option<uint16>
  {
    var value := ParseParamValue(s);
    if value in PORT_NAMES && PORT_NAMES[value] != 0 then Some(PORT_NAMES[value])
    else
      var number := ParseDecOrHexInt(value);
      if number.None? then None else Some(Wrap16(number.value))
  }

  function ParseVariableName(s: string): Option<string>
  {
    var value := ParseParamValue(s);
    if value == "" then None else Some(value)
  }

  predicate TakesNelem(function_: string)
  {
    Find(function_, "[]").Some? || Find(function_, "STRING").Some?
  }

  /** The autoparam constructor of `ADSAddress`; None stands for every exception it throws. */
  function ParseAddress(function_: string, arguments: seq<string>): (spec: Option<AddressSpec>)
    ensures spec.Some? ==> spec.value.variableName != "" && spec.value.nelem >= 1
  {
    var skip := if TakesNelem(function_) then 1 else 0;
    if |arguments| < skip + 3 then None
    else
      var dataType := ParseDataType(function_);
      var nelem := if skip == 1 then ParseNelem(arguments[0]) else Some(0);
      var operation := ParseOperation(arguments[skip]);
      var adsPort := ParseAdsPort(arguments[skip + 1]);
      var name := ParseVariableName(arguments[skip + 2]);
      if dataType.None? || nelem.None? || operation.None? || adsPort.None? || name.None? then None
      else if dataType.value == STRING && nelem.value == 0 then None
      else
        Some(AddressSpec(dataType.value, if nelem.value == 0 then 1 else nelem.value,
                         operation.value, adsPort.value, name.value))
  }

  /** What every accepted address satisfies. */
  lemma AcceptedAddress(function_: string, arguments: seq<string>)
    requires ParseAddress(function_, arguments).Some?
    ensures var spec, skip := ParseAddress(function_, arguments).value, if TakesNelem(function_) then 1 else 0;
            && |arguments| >= skip + 3 && arguments[skip] == OperationText(spec.operation)
            && spec.dataType != UNKNOWN && spec.variableName != ""
            && spec.nelem >= 1 && (skip == 0 ==> spec.nelem == 1)
  {
    hide Find, ParseNelem, ParseAdsPort, ParseVariableName, TakesNelem, ParseDataType;
    TypeIsKnown(function_);
  }

  lemma TypeIsKnown(function_: string)
    ensures ParseDataType(function_).Some? ==> ParseDataType(function_).value != UNKNOWN
  {
    hide Find;
  }

  function ParseDeviceAddress(function_: string, arguments: string): Option<AddressSpec>
  {
    ParseAddress(function_, Words(arguments, []))
  }

  // ---------- the documented form ----------

  datatype Form = Scalar | Digital | Array

  function TypeName(t: AdsDataType): string
  {
    match t
    case UNKNOWN => ""
    case BOOL => "BOOL"
    case SINT => "SINT"
    case BYTE => "BYTE"
    case USINT => "USINT"
    case INT => "INT"
    case WORD => "WORD"
    case DWORD => "DWORD"
    case UINT => "UINT"
    case DINT => "DINT"
    case UDINT => "UDINT"
    case LINT => "LINT"
    case REAL => "REAL"
    case LREAL => "LREAL"
    case STRING => "STRING"
  }

  function OperationText(operation: Operation): string
  {
    if operation == Read then "R" else "W"
  }

  /** The first word of an address: DATA_TYPE, with `[]` for arrays other than strings. */
  function FunctionText(spec: AddressSpec, form: Form): string
  {
    TypeName(spec.dataType)
    + (if spec.dataType == STRING then "" else if form == Array then "[]" else if form == Digital then "_digi" else "")
  }

  /** A number in decimal, or in hexadecimal behind `0x`. */
  function NumberText(n: nat, radix: nat): string
    requires radix == 10 || radix == 16
  {
    if radix == 16 then "0x" + Digits(n, 16) else Digits(n, 10)
  }

  /** How a port is given: as a number in some radix, or by name. */
  datatype PortText = Number(radix: nat) | Name(name: string)

  /** The documented port names. */
  predicate Documented(name: string, port: uint16)
  {
    match port
    case 100 => name == "LOGGER"
    case 200 => name == "RTIME"
    case 290 => name == "TRACE"
    case 300 => name == "IO"
    case 400 => name == "SPS"
    case 500 => name == "NC"
    case 550 => name == "ISG"
    case 600 => name == "PCS"
    case 801 => name == "PLC" || name == "PLC_RTS1"
    case 811 => name == "PLC_RTS2"
    case 821 => name == "PLC_RTS3"
    case 831 => name == "PLC_RTS4"
    case 851 => name == "PLC_TC3"
    case _ => false
  }

  predicate Gives(how: PortText, port: uint16)
  {
    match how
    case Number(radix) => radix == 10 || radix == 16
    case Name(name) => Documented(name, port)
  }

  function PortWord(port: uint16, how: PortText): string
    requires Gives(how, port)
  {
    match how
    case Number(radix) => NumberText(port, radix)
    case Name(name) => name
  }

  /** The words after the first: `N=` for arrays and strings, operation, port, name. */
  function ArgumentWords(spec: AddressSpec, form: Form, how: PortText): seq<string>
    requires Gives(how, spec.adsPort)
  {
    (if form == Array then ["N=" + Digits(spec.nelem, 10)] else [])
    + [OperationText(spec.operation), "P=" + PortWord(spec.adsPort, how), "V=" + spec.variableName]
  }

  function Join(words: seq<string>): string
  {
    if words == [] then "" else words[0] + " " + Join(words[1..])
  }

  /** Addresses that the documentation describes: a name without blanks, `N=` exactly for
    arrays and strings, one element otherwise. */
  predicate Printable(spec: AddressSpec, form: Form)
  {
    && spec.dataType != UNKNOWN
    && spec.variableName != "" && BlankFree(spec.variableName)
    && spec.nelem >= 1
    && (form == Array || spec.nelem == 1)
    && (spec.dataType == STRING ==> form == Array)
  }

  // ---------- round trip ----------

  lemma {:induction false} WordsOfJoin(words: seq<string>)
    requires forall i | 0 <= i < |words| :: words[i] != "" && BlankFree(words[i])
    ensures Words(Join(words), []) == words
  {
    if words != [] {
      var rest := " " + Join(words[1..]);
      assert Join(words) == words[0] + rest;
      ReadWord(words[0], rest, []);
      assert [] + words[0] == words[0];
      assert rest[1..] == Join(words[1..]);
      WordsOfJoin(words[1..]);
      assert [words[0]] + words[1..] == words;
    }
  }

  lemma {:induction false} ReadWord(s: string, rest: string, word: string)
    requires BlankFree(s)
    ensures Words(s + rest, word) == Words(rest, word + s)
    decreases |s|
  {
    if s == [] {
      assert s + rest == rest && word + s == word;
    } else {
      assert (s + rest)[0] == s[0] && (s + rest)[1..] == s[1..] + rest;
      assert !IsBlank(s[0]);
      ReadWord(s[1..], rest, word + [s[0]]);
      assert word + [s[0]] + s[1..] == word + s;
    }
  }

  lemma {:induction false} DigitsFromAppend(s: string, c: char, radix: nat, acc: nat)
    requires IsDigit(c, radix) && forall i | 0 <= i < |s| :: IsDigit(s[i], radix)
    ensures DigitsFrom(s + [c], radix, acc) == Shift(DigitsFrom(s, radix, acc), radix, DigitValue(c).value)
    decreases |s|
  {
    hide Shift, DigitValue;
    if s == [] {
      assert s + [c] == [c] && [c][1..] == [];
    } else {
      assert (s + [c])[0] == s[0] && (s + [c])[1..] == s[1..] + [c];
      DigitsFromAppend(s[1..], c, radix, Shift(acc, radix, DigitValue(s[0]).value));
    }
  }

  lemma {:induction false} DigitsRoundTrip(n: nat, radix: nat)
    requires 2 <= radix <= 16
    ensures DigitsFrom(Digits(n, radix), radix, 0) == n
    decreases n
  {
    DivModFacts(n, radix);
    if n < radix {
      DigitValueOf(n);
      assert DigitsFrom([], radix, Shift(0, radix, n)) == n;
    } else {
      DigitsRoundTrip(n / radix, radix);
      DigitValueOf(n % radix);
      DigitsFromAppend(Digits(n / radix, radix), DIGITS[n % radix], radix, 0);
    }
  }

  /** Whether a number has no more than 63 bits. */
  predicate IsLong(n: nat) { n < 0x8000_0000_0000_0000 }

  lemma StolOfDigits(n: nat)
    ensures Stol(Digits(n, 10)) == if IsLong(n) then Some(n) else None
  {
    hide DigitsFrom, Digits;
    DigitsRoundTrip(n, 10);
    assert IsDigit(Digits(n, 10)[0], 10);
  }

  lemma StolHexOfDigits(n: nat)
    ensures StolHex(Digits(n, 16)) == if IsLong(n) then Some(n) else None
  {
    DigitsRoundTrip(n, 16);
  }

  /** A pattern with a character that `s` lacks does not occur in `s`. */
  lemma FindAbsent(s: string, t: string, k: nat)
    requires k < |t| && t[k] !in s
    ensures Find(s, t) == None
  {
    forall at | 0 <= at <= |s| ensures !(t <= s[at..]) {
      assert at + k < |s| ==> s[at..][k] == s[at + k] && s[at + k] in s;
    }
  }

  lemma FindSuffix(s: string, t: string)
    requires t != [] && t[0] !in s
    ensures Find(s + t, t) == Some(|s|)
  {
    assert (s + t)[|s|..] == t;
    forall k | 0 <= k < |s| ensures !(t <= (s + t)[k..]) {
      assert (s + t)[k..][0] == s[k];
    }
  }

  lemma ValueAfter(key: char, value: string)
    requires key != '='
    ensures ParseParamValue([key, '='] + value) == value
  {
    var s := [key, '='] + value;
    assert s[0..][0] == key && s[1..] == "=" + value;
    assert FindFrom(s, "=", 1) == Some(1);
  }

  lemma NoNameStartsWithADigit(s: string)
    requires s != [] && '0' <= s[0] <= '9'
    ensures s !in PORT_NAMES
  {
  }

  lemma DecimalIsNotHex(s: string)
    requires forall i | 0 <= i < |s| :: IsDigit(s[i], 10)
    ensures !("0x" <= s)
  {
    if |s| >= 2 {
      assert IsDigit(s[1], 10);
    }
  }

  /** Any number of up to 63 bits comes back as its low 32 bits, and a longer one is refused. */
  lemma NumberRoundTrip(n: nat, radix: nat)
    requires radix == 10 || radix == 16
    ensures ParseDecOrHexInt(NumberText(n, radix)) == if IsLong(n) then Some(n % 0x1_0000_0000) else None
  {
    hide Stol, StolHex, Digits, DigitValue, IsDigit;
    StolOfDigits(n);
    StolHexOfDigits(n);
    if radix == 16 {
      assert NumberText(n, 16)[2..] == Digits(n, 16);
    } else {
      DecimalIsNotHex(Digits(n, 10));
    }
  }

  lemma NumbersAreNotNames(n: nat, radix: nat)
    requires radix == 10 || radix == 16
    ensures NumberText(n, radix) !in PORT_NAMES
  {
    var text := NumberText(n, radix);
    assert radix == 10 ==> IsDigit(text[0], 10);
    NoNameStartsWithADigit(text);
  }

  /** The table of names holds just the documented ones. */
  lemma NamedPorts(name: string, port: uint16)
    ensures name in PORT_NAMES && PORT_NAMES[name] == port <==> Documented(name, port)
  {
  }

  lemma LowWord(n: nat)
    ensures Wrap16(n % 0x1_0000_0000) == n % 0x1_0000
  {
    var q, r := n / 0x1_0000_0000, n % 0x1_0000_0000;
    assert n == (q * 0x1_0000) * 0x1_0000 + r;
  }

  /** A port given by number is taken modulo 2^16: too large a number is not refused. */
  lemma PortByNumber(n: nat, radix: nat)
    requires radix == 10 || radix == 16
    ensures ParseAdsPort("P=" + NumberText(n, radix)) == if IsLong(n) then Some(n % 0x1_0000) else None
  {
    hide ParseParamValue, ParseDecOrHexInt, NumberText;
    assert "P=" == ['P', '='];
    ValueAfter('P', NumberText(n, radix));
    NumberRoundTrip(n, radix);
    NumbersAreNotNames(n, radix);
    LowWord(n);
  }

  lemma NamedPort(port: uint16, name: string)
    requires Documented(name, port)
    ensures ParseAdsPort("P=" + name) == Some(port)
  {
    hide ParseParamValue, ParseDecOrHexInt;
    assert "P=" == ['P', '='];
    ValueAfter('P', name);
    NamedPorts(name, port);
  }

  /** Every port comes back, given in decimal, in hexadecimal or by a documented name. */
  lemma PortRoundTrip(port: uint16, how: PortText)
    requires Gives(how, port)
    ensures ParseAdsPort("P=" + PortWord(port, how)) == Some(port)
  {
    hide ParseAdsPort, NumberText, Documented;
    match how {
      case Number(radix) => PortByNumber(port, radix);
      case Name(name) => NamedPort(port, name);
    }
  }

  /** A count is accepted if and only if it has 32 bits and is not zero. */
  lemma NelemRoundTrip(n: nat)
    ensures ParseNelem("N=" + Digits(n, 10)) == if 1 <= n < 0x1_0000_0000 then Some(n) else None
  {
    var s := "N=" + Digits(n, 10);
    assert "N=" <= s[0..];
    assert Find(s, "N=") == Some(0);
    assert s[2..] == Digits(n, 10);
    StolOfDigits(n);
  }

  /** Without `N=` a word is taken for a count with one character before it. */
  lemma NelemWithoutKey(c: char, n: nat)
    ensures ParseNelem([c] + Digits(n, 10)) == if 1 <= n < 0x1_0000_0000 then Some(n) else None
  {
    var s := [c] + Digits(n, 10);
    forall k | 1 <= k < |s| ensures s[k] != '=' && s[k] != 'N' {
      assert IsDigit(Digits(n, 10)[k - 1], 10);
    }
    forall at | 0 <= at <= |s| ensures !("N=" <= s[at..]) {
      assert at + 1 < |s| ==> s[at..][1] == s[at + 1];
    }
    assert s[1..] == Digits(n, 10);
    StolOfDigits(n);
  }

  lemma TypeNameRoundTrip(t: AdsDataType)
    requires t != UNKNOWN
    ensures TypeName(t) in DATA_TYPES && DATA_TYPES[TypeName(t)] == t
    ensures '[' !in TypeName(t) && '_' !in TypeName(t)
    ensures t != STRING ==> 'G' !in TypeName(t)
    ensures t == STRING ==> TypeName(t) == "STRING"
  {
  }

  lemma StringFunction()
    ensures ParseDataType("STRING") == Some(STRING) && TakesNelem("STRING")
  {
    FindAbsent("STRING", "[]", 0);
    FindAbsent("STRING", "_digi", 0);
    assert "STRING" <= "STRING"[0..];
  }

  lemma ArrayFunction(name: string)
    requires name in DATA_TYPES && '[' !in name
    ensures ParseDataType(name + "[]") == Some(DATA_TYPES[name]) && TakesNelem(name + "[]")
  {
    FindSuffix(name, "[]");
    assert (name + "[]")[..|name|] == name;
  }

  lemma DigitalFunction(name: string)
    requires name in DATA_TYPES && '[' !in name && '_' !in name && 'G' !in name
    ensures ParseDataType(name + "_digi") == Some(DATA_TYPES[name]) && !TakesNelem(name + "_digi")
  {
    FindSuffix(name, "_digi");
    assert (name + "_digi")[..|name|] == name;
    FindAbsent(name + "_digi", "[]", 0);
    FindAbsent(name + "_digi", "STRING", 5);
  }

  lemma ScalarFunction(name: string)
    requires name in DATA_TYPES && '[' !in name && '_' !in name && 'G' !in name
    ensures ParseDataType(name) == Some(DATA_TYPES[name]) && !TakesNelem(name)
  {
    FindAbsent(name, "[]", 0);
    FindAbsent(name, "_digi", 0);
    FindAbsent(name, "STRING", 5);
  }

  lemma FunctionRoundTrip(spec: AddressSpec, form: Form)
    requires Printable(spec, form)
    ensures ParseDataType(FunctionText(spec, form)) == Some(spec.dataType)
    ensures TakesNelem(FunctionText(spec, form)) <==> form == Array
  {
    hide ParseDataType, TakesNelem, TypeName;
    var name := TypeName(spec.dataType);
    TypeNameRoundTrip(spec.dataType);
    if spec.dataType == STRING {
      assert FunctionText(spec, form) == name;
      StringFunction();
    } else if form == Array {
      ArrayFunction(name);
    } else if form == Digital {
      DigitalFunction(name);
    } else {
      assert name + "" == name;
      ScalarFunction(name);
    }
  }

  lemma ArgumentWordsAreWords(spec: AddressSpec, form: Form, how: PortText)
    requires Printable(spec, form) && Gives(how, spec.adsPort)
    ensures forall i | 0 <= i < |ArgumentWords(spec, form, how)| ::
              ArgumentWords(spec, form, how)[i] != "" && BlankFree(ArgumentWords(spec, form, how)[i])
  {
    assert forall i | 0 <= i < |Digits(spec.nelem, 10)| :: IsDigit(Digits(spec.nelem, 10)[i], 10);
    PortWordIsWord(spec.adsPort, how);
  }

  lemma PortWordIsWord(port: uint16, how: PortText)
    requires Gives(how, port)
    ensures BlankFree(PortWord(port, how))
  {
    if how.Number? {
      var digits := Digits(port, how.radix);
      assert forall i | 0 <= i < |digits| :: IsDigit(digits[i], how.radix);
    }
  }

  lemma NameRoundTrip(name: string)
    requires name != ""
    ensures ParseVariableName("V=" + name) == Some(name)
  {
    assert "V=" == ['V', '='];
    ValueAfter('V', name);
  }

  lemma OperationRoundTrip(operation: Operation)
    ensures ParseOperation(OperationText(operation)) == Some(operation)
  {
  }

  lemma ArgumentsRoundTrip(spec: AddressSpec, form: Form, how: PortText)
    requires Printable(spec, form) && Gives(how, spec.adsPort)
    ensures ParseAddress(FunctionText(spec, form), ArgumentWords(spec, form, how)) == Some(spec)
  {
    hide FunctionText, ParseDataType, TakesNelem, PortWord, ParseNelem, ParseAdsPort, ParseVariableName,
      ParseOperation, OperationText, Digits;
    var words := ArgumentWords(spec, form, how);
    FunctionRoundTrip(spec, form);
    OperationRoundTrip(spec.operation);
    PortRoundTrip(spec.adsPort, how);
    NameRoundTrip(spec.variableName);
    if form == Array {
      NelemRoundTrip(spec.nelem);
      assert words == ["N=" + Digits(spec.nelem, 10), OperationText(spec.operation),
                       "P=" + PortWord(spec.adsPort, how), "V=" + spec.variableName];
    } else {
      assert words == [OperationText(spec.operation),
                       "P=" + PortWord(spec.adsPort, how), "V=" + spec.variableName];
    }
  }

  /** Printing any documented address and parsing the text gives the same fields back. */
  lemma AddressRoundTrip(spec: AddressSpec, form: Form, how: PortText)
    requires Printable(spec, form) && Gives(how, spec.adsPort)
    ensures ParseDeviceAddress(FunctionText(spec, form), Join(ArgumentWords(spec, form, how))) == Some(spec)
  {
    ArgumentWordsAreWords(spec, form, how);
    WordsOfJoin(ArgumentWords(spec, form, how));
    ArgumentsRoundTrip(spec, form, how);
  }
}
