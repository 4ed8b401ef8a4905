/**
 The token path of the HTTP token credential (HttpTokenApi.credentials.ts, parsePath): what its regular expression
 reads from a text, and when that inverts the dotted and bracketed rendering of a segment list.
 */
module PathParser {
  datatype Segment = Key(key: string) | Index(index: nat)

  predicate Space(c: char) {
    c in {' ', '\t', '\n', '\r', '\U{000B}', '\U{000C}', '\U{00A0}', '\U{1680}', '\U{2028}', '\U{2029}',
          '\U{202F}', '\U{205F}', '\U{3000}', '\U{FEFF}'} || '\U{2000}' <= c <= '\U{200A}'
  }

  predicate Delimiter(c: char) { c == '.' || c == '[' || c == ']' }

  predicate Digit(c: char) { '0' <= c <= '9' }

  function TrimStart(s: string): string {
    if s != "" && Space(s[0]) then TrimStart(s[1..]) else s
  }

  function TrimEnd(s: string): string {
    if s != "" && Space(s[|s| - 1]) then TrimEnd(s[..|s| - 1]) else s
  }

  function Trim(s: string): string { TrimEnd(TrimStart(s)) }

  // ---------- scanning ----------

  /** The length of the run of key characters at the front. */
  function KeyLength(s: string): (n: nat)
    ensures n <= |s| && (n < |s| ==> Delimiter(s[n]))
    ensures forall i :: 0 <= i < n ==> !Delimiter(s[i])
  {
    if s == "" || Delimiter(s[0]) then 0 else 1 + KeyLength(s[1..])
  }

  function DigitCount(s: string): (n: nat)
    ensures n <= |s| && (n < |s| ==> !Digit(s[n]))
    ensures forall i :: 0 <= i < n ==> Digit(s[i])
  {
    if s == "" || !Digit(s[0]) then 0 else 1 + DigitCount(s[1..])
  }

  function DigitValue(c: char): nat
    requires Digit(c)
  {
    c as int - '0' as int
  }

  predicate Digits(s: string) { forall i :: 0 <= i < |s| ==> Digit(s[i]) }

  /** `parseInt(s, 10)` of a text of digits. */
  function Decimal(s: string): nat
    requires Digits(s)
  {
    if s == "" then 0 else Decimal(s[..|s| - 1]) * 10 + DigitValue(s[|s| - 1])
  }

  /** A bracketed index at the front: its number of digits, zero when there is none. */
  function IndexDigits(s: string): (n: nat)
    ensures n > 0 ==> n + 2 <= |s| && s[0] == '[' && s[n + 1] == ']'
    ensures forall i :: 1 <= i <= n ==> Digit(s[i])
  {
    if s == "" || s[0] != '[' then 0 else
      var n := DigitCount(s[1..]);
      if n + 1 < |s| && s[n + 1] == ']' then n else 0
  }

  /** All matches of the expression: the next key run or bracketed index, skipping what is neither. */
  function Scan(s: string): seq<Segment>
    decreases |s|
  {
    if s == "" then []
    else if !Delimiter(s[0]) then [Key(s[..KeyLength(s)])] + Scan(s[KeyLength(s)..])
    else if IndexDigits(s) > 0 then [Index(Decimal(s[1..IndexDigits(s) + 1]))] + Scan(s[IndexDigits(s) + 2..])
    else Scan(s[1..])
  }

  function Parse(path: string): seq<Segment> { Scan(Trim(path)) }

  lemma Appended(done: seq<Segment>, next: Segment, rest: seq<Segment>)
    ensures done + ([next] + rest) == done + [next] + rest
  {
  }

  method ParsePath(path: string) returns (segments: seq<Segment>)
    ensures segments == Parse(path)
  {
    var trimmed := Trim(path);
    if trimmed == "" { return []; }
    segments := [];
    var rest := trimmed;
    while rest != ""
      invariant segments + Scan(rest) == Scan(trimmed)
      decreases |rest|
    {
      if !Delimiter(rest[0]) {
        var n := KeyLength(rest);
        Appended(segments, Key(rest[..n]), Scan(rest[n..]));
        segments := segments + [Key(rest[..n])];
        rest := rest[n..];
      } else if IndexDigits(rest) > 0 {
        var n := IndexDigits(rest);
        Appended(segments, Index(Decimal(rest[1..n + 1])), Scan(rest[n + 2..]));
        segments := segments + [Index(Decimal(rest[1..n + 1]))];
        rest := rest[n + 2..];
      } else {
        rest := rest[1..];
      }
    }
  }

  // ---------- rendering ----------

  function DigitChar(d: nat): char
    requires d < 10
    ensures Digit(DigitChar(d)) && DigitValue(DigitChar(d)) == d
  {
    '0' + d as char
  }

  function Numeral(n: nat): (s: string)
    ensures s != "" && Digits(s)
  {
    if n < 10 then [DigitChar(n)] else Numeral(n / 10) + [DigitChar(n % 10)]
  }

  /** The dotted and bracketed form; a key that is not first is preceded by a dot. */
  function RenderFrom(segments: seq<Segment>, first: bool): string {
    if segments == [] then "" else
      (match segments[0]
       case Key(key) => if first then key else ['.'] + key
       case Index(n) => ['['] + Numeral(n) + [']'])
      + RenderFrom(segments[1..], false)
  }

  function Render(segments: seq<Segment>): string { RenderFrom(segments, true) }

  predicate Clean(s: Segment) {
    s.Key? ==> s.key != "" && forall i :: 0 <= i < |s.key| ==> s.key[i] !in {'.', '[', ']'}
  }

  predicate AllClean(segments: seq<Segment>) {
    forall i :: 0 <= i < |segments| ==> Clean(segments[i])
  }

  lemma {:induction false} DecimalOfNumeral(n: nat)
    ensures Decimal(Numeral(n)) == n
  {
    if n >= 10 {
      DecimalOfNumeral(n / 10);
      var s := Numeral(n);
      assert s[..|s| - 1] == Numeral(n / 10);
    } else {
      assert Numeral(n)[..0] == "";
    }
  }

  lemma {:induction false} KeyRun(key: string, rest: string)
    requires forall i :: 0 <= i < |key| ==> !Delimiter(key[i])
    requires rest == "" || Delimiter(rest[0])
    ensures KeyLength(key + rest) == |key|
  {
    if key != "" {
      assert (key + rest)[1..] == key[1..] + rest;
      KeyRun(key[1..], rest);
    } else {
      assert key + rest == rest;
    }
  }

  lemma {:induction false} DigitRun(digits: string, rest: string)
    requires Digits(digits) && (rest == "" || !Digit(rest[0]))
    ensures DigitCount(digits + rest) == |digits|
  {
    if digits != "" {
      assert (digits + rest)[1..] == digits[1..] + rest;
      DigitRun(digits[1..], rest);
    } else {
      assert digits + rest == rest;
    }
  }

  lemma ScanKey(key: string, rest: string)
    requires Clean(Key(key)) && (rest == "" || Delimiter(rest[0]))
    ensures Scan(key + rest) == [Key(key)] + Scan(rest)
  {
    KeyRun(key, rest);
    assert (key + rest)[..|key|] == key && (key + rest)[|key|..] == rest;
  }

  lemma ScanDottedKey(key: string, rest: string)
    requires Clean(Key(key)) && (rest == "" || Delimiter(rest[0]))
    ensures Scan(['.'] + key + rest) == [Key(key)] + Scan(rest)
  {
    assert ['.'] + key + rest == ['.'] + (key + rest);
    ScanKey(key, rest);
  }

  lemma ScanIndex(n: nat, rest: string)
    ensures Scan(['['] + Numeral(n) + [']'] + rest) == [Index(n)] + Scan(rest)
  {
    var digits := Numeral(n);
    var s := ['['] + digits + [']'] + rest;
    assert s[1..] == digits + ([']'] + rest);
    DigitRun(digits, [']'] + rest);
    assert s[1..|digits| + 1] == digits && s[|digits| + 2..] == rest;
    DecimalOfNumeral(n);
  }

  lemma {:induction false} ScanRender(segments: seq<Segment>, first: bool)
    requires AllClean(segments)
    ensures Scan(RenderFrom(segments, first)) == segments
  {
    if segments != [] {
      var rest := RenderFrom(segments[1..], false);
      ScanRender(segments[1..], false);
      assert Clean(segments[0]);
      match segments[0]
      case Key(key) =>
        if first { ScanKey(key, rest); } else { ScanDottedKey(key, rest); }
      case Index(n) => ScanIndex(n, rest);
    }
  }

  // ---------- trimming ----------

  /** A text that neither begins nor ends with white space. */
  predicate Trimmed(s: string) {
    s != "" ==> !Space(s[0]) && !Space(s[|s| - 1])
  }

  /** The key characters of a text. */
  function KeyChars(s: string): nat {
    if s == "" then 0 else (if Delimiter(s[0]) then 0 else 1) + KeyChars(s[1..])
  }

  lemma {:induction false} KeyCharsConcat(a: string, b: string)
    ensures KeyChars(a + b) == KeyChars(a) + KeyChars(b)
  {
    if a != "" {
      assert (a + b)[1..] == a[1..] + b;
      KeyCharsConcat(a[1..], b);
    } else {
      assert a + b == b;
    }
  }

  lemma {:induction false} KeyCharsOfRun(s: string)
    requires forall i :: 0 <= i < |s| ==> !Delimiter(s[i])
    ensures KeyChars(s) == |s|
  {
    if s != "" {
      KeyCharsOfRun(s[1..]);
    }
  }

  lemma {:induction false} TrimStartLoses(s: string)
    ensures KeyChars(TrimStart(s)) <= KeyChars(s)
    ensures s != "" && Space(s[0]) ==> KeyChars(TrimStart(s)) < KeyChars(s)
  {
    if s != "" && Space(s[0]) {
      TrimStartLoses(s[1..]);
    }
  }

  lemma {:induction false} TrimEndLoses(s: string)
    ensures KeyChars(TrimEnd(s)) <= KeyChars(s)
    ensures s != "" && Space(s[|s| - 1]) ==> KeyChars(TrimEnd(s)) < KeyChars(s)
  {
    if s != "" && Space(s[|s| - 1]) {
      var front := s[..|s| - 1];
      assert s == front + [s[|s| - 1]];
      KeyCharsConcat(front, [s[|s| - 1]]);
      TrimEndLoses(front);
    }
  }

  /** White space at either end is lost with its key characters. */
  lemma TrimLoses(s: string)
    requires !Trimmed(s)
    ensures KeyChars(Trim(s)) < KeyChars(s)
  {
    TrimStartLoses(s);
    TrimEndLoses(TrimStart(s));
  }

  /** The characters a segment list needs for its keys and numerals. */
  function Weight(segments: seq<Segment>): nat {
    if segments == [] then 0 else
      (match segments[0] case Key(key) => |key| case Index(n) => |Numeral(n)|) + Weight(segments[1..])
  }

  lemma {:induction false} NumeralIsShortest(s: string)
    requires Digits(s) && s != ""
    ensures |Numeral(Decimal(s))| <= |s|
  {
    var front := s[..|s| - 1];
    if front != "" {
      NumeralIsShortest(front);
      var n := Decimal(s);
      assert n / 10 == Decimal(front);
    } else {
      assert Decimal(front) == 0;
    }
  }

  lemma {:induction false} ScanWeight(s: string)
    ensures Weight(Scan(s)) <= KeyChars(s) && AllClean(Scan(s))
    decreases |s|
  {
    if s == "" {
    } else if !Delimiter(s[0]) {
      var n := KeyLength(s);
      ScanWeight(s[n..]);
      assert s == s[..n] + s[n..];
      KeyCharsConcat(s[..n], s[n..]);
      KeyCharsOfRun(s[..n]);
      assert Clean(Key(s[..n]));
    } else if IndexDigits(s) > 0 {
      var n := IndexDigits(s);
      var digits := s[1..n + 1];
      ScanWeight(s[n + 2..]);
      NumeralIsShortest(digits);
      KeyCharsOfRun(digits);
      assert s[1..] == digits + s[n + 1..];
      KeyCharsConcat(digits, s[n + 1..]);
      assert s[n + 1..][1..] == s[n + 2..];
    } else {
      ScanWeight(s[1..]);
    }
  }

  lemma KeyWeight(key: string, rest: string)
    requires Clean(Key(key))
    ensures KeyChars(key + rest) == |key| + KeyChars(rest)
    ensures KeyChars(['.'] + key + rest) == |key| + KeyChars(rest)
  {
    KeyCharsOfRun(key);
    KeyCharsConcat(key, rest);
    assert (['.'] + key + rest)[1..] == key + rest;
  }

  lemma IndexWeight(n: nat, rest: string)
    ensures KeyChars(['['] + Numeral(n) + [']'] + rest) == |Numeral(n)| + KeyChars(rest)
  {
    var digits := Numeral(n);
    KeyCharsOfRun(digits);
    KeyCharsConcat(digits, [']'] + rest);
    assert (['['] + digits + [']'] + rest)[1..] == digits + ([']'] + rest);
    assert ([']'] + rest)[1..] == rest;
  }

  lemma {:induction false} RenderWeight(segments: seq<Segment>, first: bool)
    requires AllClean(segments)
    ensures KeyChars(RenderFrom(segments, first)) == Weight(segments)
  {
    if segments != [] {
      RenderWeight(segments[1..], false);
      assert Clean(segments[0]);
      match segments[0]
      case Key(key) => KeyWeight(key, RenderFrom(segments[1..], false));
      case Index(n) => IndexWeight(n, RenderFrom(segments[1..], false));
    }
  }

  /**
   Parsing inverts rendering exactly when every key is non-empty and free of delimiters and the rendering has no
   white space at its ends. White space inside, even at the edge of an inner key, does no harm.
   */
  lemma RoundTrip(segments: seq<Segment>)
    ensures Parse(Render(segments)) == segments <==> AllClean(segments) && Trimmed(Render(segments))
  {
    var path := Render(segments);
    ScanWeight(Trim(path));
    if AllClean(segments) {
      RenderWeight(segments, true);
      if Trimmed(path) {
        ScanRender(segments, true);
      } else {
        TrimLoses(path);
      }
    }
  }

  /** Keys without white space at their ends are more than enough. */
  lemma RoundTripOfTrimmedKeys(segments: seq<Segment>)
    requires AllClean(segments) && forall i :: 0 <= i < |segments| && segments[i].Key? ==> Trimmed(segments[i].key)
    ensures Parse(Render(segments)) == segments
  {
    RenderTrimmed(segments, true);
    RoundTrip(segments);
  }

  lemma {:induction false} RenderTrimmed(segments: seq<Segment>, first: bool)
    requires AllClean(segments) && forall i :: 0 <= i < |segments| && segments[i].Key? ==> Trimmed(segments[i].key)
    ensures Trimmed(RenderFrom(segments, first))
    ensures segments != [] ==> RenderFrom(segments, first) != ""
  {
    if segments != [] {
      assert Clean(segments[0]);
      RenderTrimmed(segments[1..], false);
    }
  }

  // ---------- trimming, and some paths ----------

  lemma {:induction false} TrimStartIs(s: string) returns (i: nat)
    ensures i <= |s| && TrimStart(s) == s[i..] && (forall k :: 0 <= k < i ==> Space(s[k])) && (i < |s| ==> !Space(s[i]))
  {
    if s != "" && Space(s[0]) {
      i := TrimStartIs(s[1..]);
      assert s[1..][i..] == s[i + 1..] && forall k :: 0 < k < i + 1 ==> s[k] == s[1..][k - 1];
      i := i + 1;
    } else {
      i := 0;
    }
  }

  lemma {:induction false} TrimEndIs(s: string) returns (j: nat)
    ensures j <= |s| && TrimEnd(s) == s[..j] && (forall k :: j <= k < |s| ==> Space(s[k]))
    ensures j > 0 ==> !Space(s[j - 1])
  {
    if s != "" && Space(s[|s| - 1]) {
      j := TrimEndIs(s[..|s| - 1]);
      assert s[..|s| - 1][..j] == s[..j] && forall k :: j <= k < |s| - 1 ==> s[k] == s[..|s| - 1][k];
    } else {
      j := |s|;
    }
  }

  /** What is trimmed off is white space, and what is left has none at its ends. */
  lemma TrimIs(s: string) returns (i: nat, j: nat)
    ensures i <= j <= |s| && Trim(s) == s[i..j]
    ensures forall k :: 0 <= k < i || j <= k < |s| ==> Space(s[k])
    ensures i < j ==> !Space(s[i]) && !Space(s[j - 1])
  {
    i := TrimStartIs(s);
    var rest := s[i..];
    var n := TrimEndIs(rest);
    j := i + n;
    assert rest[..n] == s[i..j] && forall k :: i <= k < |s| ==> s[k] == rest[k - i];
  }

  /** The white space of ECMAScript: tab, line breaks, blanks, no-break space and byte order mark, but nothing else. */
  lemma SpaceSamples()
    ensures Space(' ') && Space('\t') && Space('\n') && Space('\r') && Space('\U{000B}') && Space('\U{000C}')
    ensures Space('\U{00A0}') && Space('\U{FEFF}') && Space('\U{2003}') && Space('\U{2029}') && Space('\U{3000}')
    ensures !Space('a') && !Space('0') && !Space('.') && !Space('[') && !Space('_')
    ensures !Space('\U{200B}') && !Space('\U{0085}')
  {
  }

  /** Any run of digits in brackets is an index, with or without leading zeros. */
  lemma ScanDigits(digits: string, rest: string)
    requires digits != "" && Digits(digits)
    ensures Scan(['['] + digits + [']'] + rest) == [Index(Decimal(digits))] + Scan(rest)
  {
    var s := ['['] + digits + [']'] + rest;
    var n := |digits|;
    assert s[1..] == digits + ([']'] + rest);
    DigitRun(digits, [']'] + rest);
    assert s[1..n + 1] == digits && s[n + 2..] == rest;
  }

  /** A delimiter that opens no index is skipped. */
  lemma ScanSkips(d: char, rest: string)
    requires d in {'.', '[', ']'}
    requires d == '[' ==> rest == "" || !Digit(rest[0])
    ensures Scan([d] + rest) == Scan(rest)
  {
    assert ([d] + rest)[1..] == rest;
  }

  lemma LeadingZero(digits: string)
    requires Digits(digits)
    ensures Digits(['0'] + digits) && Decimal(['0'] + digits) == Decimal(digits)
    decreases |digits|
  {
    var s := ['0'] + digits;
    assert forall i :: 0 < i < |s| ==> s[i] == digits[i - 1];
    if digits != "" {
      var n := |digits| - 1;
      assert s[..|s| - 1] == ['0'] + digits[..n] && s[|s| - 1] == digits[n];
      LeadingZero(digits[..n]);
    } else {
      assert s[..0] == "";
    }
  }

  /** An index that is not closed is a key. */
  lemma ScanUnclosed(digits: string)
    requires digits != "" && Digits(digits)
    ensures Scan(['['] + digits) == [Key(digits)]
  {
    var s := ['['] + digits;
    assert s[1..] == digits && digits + "" == digits;
    DigitRun(digits, "");
    ScanKey(digits, "");
  }
}
