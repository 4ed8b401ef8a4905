/**
 The canonical serialiser that keys the token cache (HttpTokenRefreshApi.credentials.ts, stableStringify).
 Texts are sequences of UTF-16 code units, as JavaScript strings are.
 */
module StableStringify {
  type Unit = u: nat | u < 0x10000
  type Text = seq<Unit>

  const QUOTE: Unit := 34
  const COMMA: Unit := 44
  const COLON: Unit := 58
  const OPEN_BRACKET: Unit := 91
  const BACKSLASH: Unit := 92
  const CLOSE_BRACKET: Unit := 93
  const LETTER_U: Unit := 117
  const OPEN_BRACE: Unit := 123
  const CLOSE_BRACE: Unit := 125

  const NULL_TEXT: Text := [110, 117, 108, 108]
  const TRUE_TEXT: Text := [116, 114, 117, 101]
  const FALSE_TEXT: Text := [102, 97, 108, 115, 101]
  const UNDEFINED_TEXT: Text := [117, 110, 100, 101, 102, 105, 110, 101, 100]

  /** A value as the serialiser sees it; members are in insertion order, a number is the text it prints as. */
  datatype Value =
    | Undefined
    | Null
    | Bool(b: bool)
    | Number(text: Text)
    | NotFinite
    | Str(units: Text)
    | Arr(items: seq<Value>)
    | Obj(members: seq<Member>)

  datatype Member = Member(key: Text, value: Value)

  predicate NumberUnit(u: Unit) {
    48 <= u <= 57 || u == 43 || u == 45 || u == 46 || u == 101
  }

  /** What `JSON.stringify` prints for a finite number: a sign or a digit, then only number characters. */
  predicate NumberText(t: Text) {
    && t != [] && (t[0] == 45 || 48 <= t[0] <= 57)
    && (forall i :: 0 <= i < |t| ==> NumberUnit(t[i]))
  }

  /** Number texts are number texts, and no object has a key twice. */
  ghost predicate WellFormed(v: Value) {
    match v
    case Number(text) => NumberText(text)
    case Arr(items) => forall i :: 0 <= i < |items| ==> WellFormed(items[i])
    case Obj(members) =>
      && (forall i :: 0 <= i < |members| ==> WellFormed(members[i].value))
      && DistinctKeys(members)
    case _ => true
  }

  ghost predicate DistinctKeys(members: seq<Member>) {
    forall i, j :: 0 <= i < j < |members| ==> members[i].key != members[j].key
  }

  // ---------- string literals ----------

  function HexDigit(d: nat): Unit
    requires d < 16
  {
    if d < 10 then 48 + d else 87 + d
  }

  function Hex4(u: Unit): Text {
    [HexDigit(u / 16 / 16 / 16), HexDigit(u / 16 / 16 % 16), HexDigit(u / 16 % 16), HexDigit(u % 16)]
  }

  predicate HighSurrogate(u: Unit) { 0xD800 <= u <= 0xDBFF }

  predicate LowSurrogate(u: Unit) { 0xDC00 <= u <= 0xDFFF }

  /** A surrogate that is not half of a pair. */
  predicate Lone(s: Text, i: nat)
    requires i < |s|
  {
    || (HighSurrogate(s[i]) && !(i + 1 < |s| && LowSurrogate(s[i + 1])))
    || (LowSurrogate(s[i]) && !(i > 0 && HighSurrogate(s[i - 1])))
  }

  /** Section 7 of RFC 8259, with the choices of `JSON.stringify`. */
  function EscapeUnit(u: Unit, lone: bool): Text {
    if u == 8 then [BACKSLASH, 98]
    else if u == 9 then [BACKSLASH, 116]
    else if u == 10 then [BACKSLASH, 110]
    else if u == 12 then [BACKSLASH, 102]
    else if u == 13 then [BACKSLASH, 114]
    else if u == QUOTE || u == BACKSLASH then [BACKSLASH, u]
    else if u < 32 || lone then [BACKSLASH, LETTER_U] + Hex4(u)
    else [u]
  }

  function EscapeFrom(s: Text, i: nat): Text
    requires i <= |s|
    decreases |s| - i
  {
    if i == |s| then [] else EscapeUnit(s[i], Lone(s, i)) + EscapeFrom(s, i + 1)
  }

  /** `JSON.stringify` of a string. */
  function Quote(s: Text): Text {
    [QUOTE] + EscapeFrom(s, 0) + [QUOTE]
  }

  /** At unit j: a high surrogate is followed by a low one, and a low one preceded by a high one. */
  predicate PairedAt(t: Text, j: nat)
    requires j < |t|
  {
    && (0xD800 <= t[j] <= 0xDBFF ==> j + 1 < |t| && 0xDC00 <= t[j + 1] <= 0xDFFF)
    && (0xDC00 <= t[j] <= 0xDFFF ==> j > 0 && 0xD800 <= t[j - 1] <= 0xDBFF)
  }

  /** Unit i is the second half of a pair. */
  predicate SecondHalf(s: Text, i: nat) {
    0 < i < |s| && HighSurrogate(s[i - 1]) && LowSurrogate(s[i])
  }

  /** From unit i on the escaped text is paired, but for a second half at its start. */
  lemma {:induction false} EscapedPaired(s: Text, i: nat)
    requires i <= |s|
    ensures SecondHalf(s, i) ==> EscapeFrom(s, i) != [] && EscapeFrom(s, i)[0] == s[i]
    ensures forall j :: 0 <= j < |EscapeFrom(s, i)| && (j > 0 || !SecondHalf(s, i)) ==> PairedAt(EscapeFrom(s, i), j)
    ensures SecondHalf(s, i) ==> !HighSurrogate(s[i])
    decreases |s| - i
  {
    if i < |s| {
      EscapedPaired(s, i + 1);
      var first, rest := EscapeUnit(s[i], Lone(s, i)), EscapeFrom(s, i + 1);
      var e := EscapeFrom(s, i);
      assert e == first + rest;
      if |first| > 1 { EscapeIsPlain(s[i], Lone(s, i)); }
      forall j | 0 <= j < |e| && (j > 0 || !SecondHalf(s, i)) ensures PairedAt(e, j) {
        if j >= |first| {
          assert e[j] == rest[j - |first|];
          if j > |first| || !SecondHalf(s, i + 1) { assert PairedAt(rest, j - |first|); }
        }
      }
    }
  }

  lemma EscapeIsPlain(u: Unit, lone: bool)
    requires |EscapeUnit(u, lone)| > 1
    ensures forall j :: 0 <= j < |EscapeUnit(u, lone)| ==> EscapeUnit(u, lone)[j] < 0xD800
  {
  }

  /** A printed literal never holds half of a surrogate pair. */
  lemma QuotePaired(s: Text, j: nat)
    requires j < |Quote(s)|
    ensures PairedAt(Quote(s), j)
  {
    EscapedPaired(s, 0);
    var e := EscapeFrom(s, 0);
    if 0 < j < |Quote(s)| - 1 { assert Quote(s)[j] == e[j - 1] && PairedAt(e, j - 1); }
  }

  lemma Hex4Injective(u: Unit, w: Unit)
    requires Hex4(u) == Hex4(w)
    ensures u == w
  {
    var a, b := Hex4(u), Hex4(w);
    assert a[0] == b[0] && a[1] == b[1] && a[2] == b[2] && a[3] == b[3];
  }

  /** An escaped unit says how long it is and which unit it stands for. */
  lemma EscapeUnitSelfDelimiting(u: Unit, lone: bool, w: Unit, otherLone: bool, x: Text, y: Text)
    requires EscapeUnit(u, lone) + x == EscapeUnit(w, otherLone) + y
    ensures u == w && x == y
  {
    var a, b := EscapeUnit(u, lone), EscapeUnit(w, otherLone);
    var s := a + x;
    assert s == b + y;
    assert a[0] == s[0] == b[0];
    if s[0] == BACKSLASH {
      assert a[1] == s[1] == b[1];
      if s[1] == LETTER_U {
        assert s[2..6] == Hex4(u) by { assert a[2..6] == Hex4(u); }
        assert s[2..6] == Hex4(w) by { assert b[2..6] == Hex4(w); }
        Hex4Injective(u, w);
      }
    }
    assert |a| == |b|;
    assert x == s[|a|..] && y == s[|b|..];
  }

  /** The rest of a literal from unit i on, and what follows it. */
  function Tail(s: Text, i: nat, after: Text): (t: Text)
    requires i <= |s|
    ensures t != []
  {
    EscapeFrom(s, i) + [QUOTE] + after
  }

  lemma TailStep(s: Text, i: nat, after: Text)
    requires i < |s|
    ensures Tail(s, i, after) == EscapeUnit(s[i], Lone(s, i)) + Tail(s, i + 1, after)
    ensures Tail(s, i, after)[0] != QUOTE
  {
  }

  lemma TailEnd(s: Text, after: Text)
    ensures Tail(s, |s|, after) == [QUOTE] + after
  {
  }

  lemma {:induction false} EscapeSelfDelimiting(s: Text, i: nat, t: Text, j: nat, a: Text, b: Text)
    requires i <= |s| && j <= |t| && Tail(s, i, a) == Tail(t, j, b)
    ensures s[i..] == t[j..] && a == b
    decreases |s| - i
  {
    if i == |s| { TailEnd(s, a); } else { TailStep(s, i, a); }
    if j == |t| { TailEnd(t, b); } else { TailStep(t, j, b); }
    if i == |s| {
      assert a == Tail(s, i, a)[1..] && b == Tail(t, j, b)[1..];
    } else {
      EscapeUnitSelfDelimiting(s[i], Lone(s, i), t[j], Lone(t, j), Tail(s, i + 1, a), Tail(t, j + 1, b));
      EscapeSelfDelimiting(s, i + 1, t, j + 1, a, b);
      assert s[i..] == [s[i]] + s[i + 1..] && t[j..] == [t[j]] + t[j + 1..];
    }
  }

  /** A string literal ends where it says it does, and determines the string. */
  lemma QuoteSelfDelimiting(s: Text, t: Text, a: Text, b: Text)
    requires Quote(s) + a == Quote(t) + b
    ensures s == t && a == b
  {
    assert (Quote(s) + a)[1..] == Tail(s, 0, a);
    assert (Quote(t) + b)[1..] == Tail(t, 0, b);
    EscapeSelfDelimiting(s, 0, t, 0, a, b);
    assert s[0..] == s && t[0..] == t;
  }

  // ---------- the order of keys ----------

  /** `Array.prototype.sort` on strings compares code units. */
  predicate Less(a: Text, b: Text) {
    b != [] && (a == [] || a[0] < b[0] || (a[0] == b[0] && Less(a[1..], b[1..])))
  }

  /** The texts agree up to some place, where the first one ends or has the smaller unit. */
  predicate LessAt(a: Text, b: Text, i: nat) {
    i <= |a| && i < |b| && a[..i] == b[..i] && (i == |a| || a[i] < b[i])
  }

  lemma {:induction false} LessExact(a: Text, b: Text)
    ensures Less(a, b) <==> exists i: nat :: LessAt(a, b, i)
  {
    if a == [] || b == [] || a[0] != b[0] {
      if Less(a, b) { assert LessAt(a, b, 0); }
      if i: nat :| LessAt(a, b, i) { assert i > 0 ==> a[..i][0] == b[..i][0]; }
    } else {
      LessExact(a[1..], b[1..]);
      if i: nat :| LessAt(a[1..], b[1..], i) {
        assert a[..i + 1] == [a[0]] + a[1..][..i] && b[..i + 1] == [b[0]] + b[1..][..i];
        assert LessAt(a, b, i + 1);
      }
      if i: nat :| LessAt(a, b, i) {
        assert i > 0;
        assert a[1..][..i - 1] == a[..i][1..] && b[1..][..i - 1] == b[..i][1..];
        assert LessAt(a[1..], b[1..], i - 1);
      }
    }
  }

  lemma {:induction false} LessTotal(a: Text, b: Text)
    ensures a == b || Less(a, b) || Less(b, a)
  {
    if a != [] && b != [] && a[0] == b[0] {
      LessTotal(a[1..], b[1..]);
      assert a == [a[0]] + a[1..] && b == [b[0]] + b[1..];
    }
  }

  lemma {:induction false} LessTransitive(a: Text, b: Text, c: Text)
    requires Less(a, b) && Less(b, c)
    ensures Less(a, c)
  {
    if a != [] && a[0] == b[0] == c[0] {
      LessTransitive(a[1..], b[1..], c[1..]);
    }
  }

  lemma {:induction false} LessIrreflexive(a: Text)
    ensures !Less(a, a)
  {
    if a != [] {
      LessIrreflexive(a[1..]);
    }
  }

  /** A member as printed: its key and the text of its value. */
  datatype Entry = Entry(key: Text, text: Text)

  function Insert(e: Entry, sorted: seq<Entry>): seq<Entry> {
    if sorted == [] || Less(e.key, sorted[0].key) then [e] + sorted else [sorted[0]] + Insert(e, sorted[1..])
  }

  function Sort(entries: seq<Entry>): seq<Entry> {
    if entries == [] then [] else Insert(entries[0], Sort(entries[1..]))
  }

  ghost predicate Ascending(entries: seq<Entry>) {
    forall i, j :: 0 <= i < j < |entries| ==> Less(entries[i].key, entries[j].key)
  }

  ghost predicate DistinctEntryKeys(entries: seq<Entry>) {
    forall i, j :: 0 <= i < j < |entries| ==> entries[i].key != entries[j].key
  }

  lemma {:induction false} InsertMembers(e: Entry, sorted: seq<Entry>)
    ensures forall x :: x in Insert(e, sorted) <==> x == e || x in sorted
  {
    if sorted != [] && !Less(e.key, sorted[0].key) {
      InsertMembers(e, sorted[1..]);
      assert sorted == [sorted[0]] + sorted[1..];
    }
  }

  lemma {:induction false} InsertAscends(e: Entry, sorted: seq<Entry>)
    requires Ascending(sorted) && forall x :: x in sorted ==> x.key != e.key
    ensures Ascending(Insert(e, sorted))
  {
    var inserted := Insert(e, sorted);
    if sorted == [] {
    } else if Less(e.key, sorted[0].key) {
      forall j | 0 < j < |inserted| ensures Less(e.key, inserted[j].key) {
        if j > 1 { LessTransitive(e.key, sorted[0].key, sorted[j - 1].key); }
      }
    } else {
      assert sorted[0] in sorted;
      LessTotal(e.key, sorted[0].key);
      assert forall x :: x in sorted[1..] ==> x in sorted;
      InsertAscends(e, sorted[1..]);
      InsertMembers(e, sorted[1..]);
      forall j | 0 < j < |inserted| ensures Less(sorted[0].key, inserted[j].key) {
        assert inserted[j] == Insert(e, sorted[1..])[j - 1];
        assert inserted[j] in Insert(e, sorted[1..]);
        if inserted[j] != e {
          var p :| 0 <= p < |sorted[1..]| && sorted[1..][p] == inserted[j];
          assert sorted[p + 1] == inserted[j];
        }
      }
    }
  }

  lemma {:induction false} SortSorts(entries: seq<Entry>)
    requires DistinctEntryKeys(entries)
    ensures Ascending(Sort(entries))
    ensures forall x :: x in Sort(entries) <==> x in entries
  {
    if entries != [] {
      var rest := entries[1..];
      SortSorts(rest);
      InsertMembers(entries[0], Sort(rest));
      assert entries == [entries[0]] + rest;
      forall x | x in rest ensures x.key != entries[0].key {
        var p :| 0 <= p < |rest| && rest[p] == x;
        assert entries[p + 1] == x;
      }
      InsertAscends(entries[0], Sort(rest));
    }
  }

  /** An ascending sequence is determined by its elements. */
  lemma {:induction false} AscendingUnique(a: seq<Entry>, b: seq<Entry>)
    requires Ascending(a) && Ascending(b) && forall x :: x in a <==> x in b
    ensures a == b
  {
    assert a == [] || a[0] in a;
    assert b == [] || b[0] in b;
    if a != [] && b != [] {
      HeadsEqual(a, b);
      TailsSame(a, b);
      TailsSame(b, a);
      assert a == [a[0]] + a[1..] && b == [b[0]] + b[1..];
      AscendingUnique(a[1..], b[1..]);
    }
  }

  lemma HeadsEqual(a: seq<Entry>, b: seq<Entry>)
    requires Ascending(a) && Ascending(b) && a != [] && b != [] && forall x :: x in a <==> x in b
    ensures a[0] == b[0]
  {
    assert a[0] in b && b[0] in a;
    if a[0] != b[0] {
      LessTransitive(a[0].key, b[0].key, a[0].key);
      LessIrreflexive(a[0].key);
    }
  }

  lemma TailsSame(a: seq<Entry>, b: seq<Entry>)
    requires Ascending(a) && Ascending(b) && a != [] && b != [] && a[0] == b[0] && forall x :: x in a ==> x in b
    ensures forall x :: x in a[1..] ==> x in b[1..]
  {
    forall x | x in a[1..] ensures x in b[1..] {
      var p :| 0 <= p < |a[1..]| && a[1..][p] == x;
      assert x == a[p + 1] && x in a;
      LessIrreflexive(x.key);
      assert b == [b[0]] + b[1..];
    }
  }

  // ---------- the serialiser ----------

  function Stable(v: Value): Text
    decreases v, 1
  {
    match v
    case Undefined => UNDEFINED_TEXT
    case Null => NULL_TEXT
    case NotFinite => NULL_TEXT
    case Bool(b) => if b then TRUE_TEXT else FALSE_TEXT
    case Number(text) => text
    case Str(units) => Quote(units)
    case Arr(items) => [OPEN_BRACKET] + JoinItems(items) + [CLOSE_BRACKET]
    case Obj(members) => [OPEN_BRACE] + JoinEntries(Sort(Rendered(members))) + [CLOSE_BRACE]
  }

  /** `join` prints an undefined element as the empty text. */
  function ItemText(v: Value): Text
    decreases v, 2
  {
    if v.Undefined? then [] else Stable(v)
  }

  function JoinItems(items: seq<Value>): Text
    decreases items, 0
  {
    if items == [] then []
    else if |items| == 1 then ItemText(items[0])
    else ItemText(items[0]) + [COMMA] + JoinItems(items[1..])
  }

  function Rendered(members: seq<Member>): (entries: seq<Entry>)
    ensures |entries| == |members|
    ensures forall i :: 0 <= i < |members| ==> entries[i] == Entry(members[i].key, Stable(members[i].value))
    decreases members, 0
  {
    if members == [] then [] else [Entry(members[0].key, Stable(members[0].value))] + Rendered(members[1..])
  }

  function EntryText(e: Entry): Text {
    Quote(e.key) + [COLON] + e.text
  }

  function JoinEntries(entries: seq<Entry>): Text {
    if entries == [] then []
    else if |entries| == 1 then EntryText(entries[0])
    else EntryText(entries[0]) + [COMMA] + JoinEntries(entries[1..])
  }

  // ---------- equality of JSON values ----------

  /**
   Equality as JSON values: objects as maps, arrays in order. What the serialiser cannot tell apart is null and a
   number that is not finite, and the empty array and the array of one undefined element.
   */
  ghost predicate Same(v: Value, w: Value)
    decreases v
  {
    match v
    case Undefined => w.Undefined?
    case Null => w.Null? || w.NotFinite?
    case NotFinite => w.Null? || w.NotFinite?
    case Bool(b) => w == Bool(b)
    case Number(text) => w == Number(text)
    case Str(units) => w == Str(units)
    case Arr(items) => w.Arr? && (SameItems(items, w.items) || (NoText(items) && NoText(w.items)))
    case Obj(members) => w.Obj? && SameMembers(members, w.members)
  }

  predicate NoText(items: seq<Value>) {
    items == [] || items == [Undefined]
  }

  ghost predicate SameItems(items: seq<Value>, others: seq<Value>)
    decreases items
  {
    |items| == |others| && forall i | 0 <= i < |items| :: Same(items[i], others[i])
  }

  ghost predicate SameMembers(members: seq<Member>, others: seq<Member>)
    decreases members
  {
    && (forall m | m in members :: exists n :: n in others && n.key == m.key && Same(m.value, n.value))
    && KeysWithin(others, members)
  }

  ghost predicate KeysWithin(members: seq<Member>, others: seq<Member>) {
    forall m | m in members :: exists n :: n in others && n.key == m.key
  }

  // ---------- injectivity ----------

  /** What can follow a value: the end of the text, a comma or a closing bracket. */
  predicate Ends(a: Text) {
    a == [] || a[0] == COMMA || a[0] == CLOSE_BRACKET || a[0] == CLOSE_BRACE
  }

  /** The first unit of a value's text tells its kind, and is none that can follow a value. */
  predicate Starts(v: Value, u: Unit) {
    match v
    case Undefined => u == LETTER_U
    case Null => u == 110
    case NotFinite => u == 110
    case Bool(b) => u == if b then 116 else 102
    case Number(_) => u == 45 || 48 <= u <= 57
    case Str(_) => u == QUOTE
    case Arr(_) => u == OPEN_BRACKET
    case Obj(_) => u == OPEN_BRACE
  }

  lemma NumberSelfDelimiting(s: Text, t: Text, a: Text, b: Text)
    requires NumberText(s) && NumberText(t) && Ends(a) && Ends(b) && s + a == t + b
    ensures s == t && a == b
  {
    var whole := s + a;
    assert forall i :: 0 <= i < |s| ==> whole[i] == s[i];
    assert forall i :: 0 <= i < |t| ==> whole[i] == t[i];
    assert |s| < |whole| ==> whole[|s|] == a[0];
    assert |t| < |whole| ==> whole[|t|] == b[0];
    assert |s| == |t|;
    assert s == whole[..|s|] && t == whole[..|t|];
    assert a == whole[|s|..] && b == whole[|t|..];
  }

  lemma SamePrefix(p: Text, q: Text, a: Text, b: Text)
    requires p + a == q + b && |p| == |q|
    ensures p == q && a == b
  {
    assert p == (p + a)[..|p|] && q == (q + b)[..|q|];
    assert a == (p + a)[|p|..] && b == (q + b)[|q|..];
  }

  /** A value's text ends where it says it does, and determines the value. */
  lemma {:induction false} SelfDelimiting(v: Value, w: Value, a: Text, b: Text)
    requires WellFormed(v) && WellFormed(w) && Ends(a) && Ends(b)
    requires Stable(v) + a == Stable(w) + b
    ensures Same(v, w) && a == b && Stable(v) == Stable(w)
    decreases v, 3
  {
    assert (Stable(v) + a)[0] == Stable(v)[0] && (Stable(w) + b)[0] == Stable(w)[0];
    match v
    case Number(text) => NumberSelfDelimiting(text, w.text, a, b);
    case Str(units) => QuoteSelfDelimiting(units, w.units, a, b);
    case Arr(items) => ArraysSelfDelimiting(v, w, a, b);
    case Obj(members) => ObjectsSelfDelimiting(v, w, a, b);
    case _ => SamePrefix(Stable(v), Stable(w), a, b);
  }

  /** The items from one on, with the bracket that closes them. */
  function ItemsTail(items: seq<Value>, after: Text): Text {
    JoinItems(items) + [CLOSE_BRACKET] + after
  }

  lemma ItemsTailStep(items: seq<Value>, after: Text)
    requires items != []
    ensures
      var rest := if |items| == 1 then [CLOSE_BRACKET] + after else [COMMA] + ItemsTail(items[1..], after);
      ItemsTail(items, after) == ItemText(items[0]) + rest
  {
  }

  lemma ArraysSelfDelimiting(v: Value, w: Value, a: Text, b: Text)
    requires WellFormed(v) && WellFormed(w) && v.Arr? && w.Arr?
    requires Stable(v) + a == Stable(w) + b
    ensures Same(v, w) && a == b && Stable(v) == Stable(w)
    decreases v, 2
  {
    assert (Stable(v) + a)[1..] == ItemsTail(v.items, a);
    assert (Stable(w) + b)[1..] == ItemsTail(w.items, b);
    if v.items == [] || w.items == [] {
      NoItems(v, w, a, b);
    } else {
      ItemsSelfDelimiting(v, v.items, w.items, a, b);
      SamePrefix(Stable(v), Stable(w), a, b);
    }
  }

  lemma EmptyTail(items: seq<Value>, after: Text)
    requires forall i :: 0 <= i < |items| ==> WellFormed(items[i])
    requires ItemsTail(items, after)[0] == CLOSE_BRACKET
    ensures NoText(items) && ItemsTail(items, after) == [CLOSE_BRACKET] + after
  {
    if items != [] {
      ItemsTailStep(items, after);
      assert items[0].Undefined?;
      assert |items| == 1;
      assert items == [Undefined];
    }
  }

  lemma NoItems(v: Value, w: Value, a: Text, b: Text)
    requires WellFormed(v) && WellFormed(w) && v.Arr? && w.Arr? && (v.items == [] || w.items == [])
    requires ItemsTail(v.items, a) == ItemsTail(w.items, b)
    ensures Same(v, w) && a == b && Stable(v) == Stable(w)
  {
    EmptyTail(v.items, a);
    EmptyTail(w.items, b);
    assert a == ItemsTail(v.items, a)[1..] && b == ItemsTail(w.items, b)[1..];
  }

  /** After equal items comes an equal rest. */
  lemma ItemSelfDelimiting(x: Value, y: Value, a: Text, b: Text)
    requires WellFormed(x) && WellFormed(y) && Ends(a) && Ends(b) && a != [] && b != []
    requires ItemText(x) + a == ItemText(y) + b
    ensures Same(x, y) && a == b
    decreases x, 4
  {
    if x.Undefined? || y.Undefined? {
      assert x.Undefined? ==> ItemText(x) + a == a;
      assert y.Undefined? ==> ItemText(y) + b == b;
    } else {
      SelfDelimiting(x, y, a, b);
    }
  }

  lemma {:induction false} ItemsSelfDelimiting(v: Value, items: seq<Value>, others: seq<Value>, a: Text, b: Text)
    requires items != [] && others != []
    requires forall i :: 0 <= i < |items| ==> WellFormed(items[i]) && items[i] < v
    requires forall i :: 0 <= i < |others| ==> WellFormed(others[i])
    requires ItemsTail(items, a) == ItemsTail(others, b)
    ensures SameItems(items, others) && a == b
    decreases v, 1, |items|
  {
    ItemsTailStep(items, a);
    ItemsTailStep(others, b);
    var x := if |items| == 1 then [CLOSE_BRACKET] + a else [COMMA] + ItemsTail(items[1..], a);
    var y := if |others| == 1 then [CLOSE_BRACKET] + b else [COMMA] + ItemsTail(others[1..], b);
    ItemSelfDelimiting(items[0], others[0], x, y);
    assert x[0] == y[0] && x[1..] == y[1..];
    if |items| > 1 {
      assert x[1..] == ItemsTail(items[1..], a) && y[1..] == ItemsTail(others[1..], b);
      ItemsSelfDelimiting(v, items[1..], others[1..], a, b);
      forall i | 0 <= i < |items| ensures Same(items[i], others[i]) {
        if i > 0 { assert items[i] == items[1..][i - 1] && others[i] == others[1..][i - 1]; }
      }
    } else {
      assert x[1..] == a && y[1..] == b;
    }
  }

  function EntriesTail(entries: seq<Entry>, after: Text): Text {
    JoinEntries(entries) + [CLOSE_BRACE] + after
  }

  /** What follows the first entry. */
  function AfterFirst(entries: seq<Entry>, after: Text): Text
    requires entries != []
  {
    if |entries| == 1 then [CLOSE_BRACE] + after else [COMMA] + EntriesTail(entries[1..], after)
  }

  lemma EntriesTailStep(entries: seq<Entry>, after: Text)
    requires entries != []
    ensures EntriesTail(entries, after)
            == Quote(entries[0].key) + ([COLON] + (entries[0].text + AfterFirst(entries, after)))
    ensures EntriesTail(entries, after)[0] == QUOTE
  {
    var key, text := Quote(entries[0].key), entries[0].text;
    assert key[0] == QUOTE;
    if |entries| == 1 {
      AssociateLast(key, text, [CLOSE_BRACE], after);
    } else {
      AssociateMore(key, text, JoinEntries(entries[1..]), [CLOSE_BRACE], after);
    }
  }

  lemma AssociateLast(key: Text, text: Text, close: Text, after: Text)
    ensures key + [COLON] + text + close + after == key + ([COLON] + (text + (close + after)))
  {
  }

  lemma AssociateMore(key: Text, text: Text, more: Text, close: Text, after: Text)
    ensures key + [COLON] + text + [COMMA] + more + close + after
            == key + ([COLON] + (text + ([COMMA] + (more + close + after))))
  {
  }

  /** The entry is a member of the object, printed. */
  ghost predicate Prints(e: Entry, m: Member) {
    e == Entry(m.key, Stable(m.value))
  }

  lemma ObjectsSelfDelimiting(v: Value, w: Value, a: Text, b: Text)
    requires WellFormed(v) && WellFormed(w) && v.Obj? && w.Obj?
    requires Stable(v) + a == Stable(w) + b
    ensures Same(v, w) && a == b && Stable(v) == Stable(w)
    decreases v, 2
  {
    var entries, others := Sort(Rendered(v.members)), Sort(Rendered(w.members));
    ObjectTail(v, a);
    ObjectTail(w, b);
    SortSorts(Rendered(v.members));
    SortSorts(Rendered(w.members));
    EntriesSelfDelimiting(v, w, entries, others, a, b);
    assert entries == others;
    EntriesGiveMembers(v, w, entries);
    SamePrefix(Stable(v), Stable(w), a, b);
  }

  lemma ObjectTail(v: Value, after: Text)
    requires v.Obj?
    ensures (Stable(v) + after)[1..] == EntriesTail(Sort(Rendered(v.members)), after)
  {
    DropFirst(JoinEntries(Sort(Rendered(v.members))), after);
  }

  lemma DropFirst(inner: Text, after: Text)
    ensures ([OPEN_BRACE] + inner + [CLOSE_BRACE] + after)[1..] == inner + [CLOSE_BRACE] + after
  {
  }

  lemma EntryIsMember(members: seq<Member>, e: Entry)
    requires e in Rendered(members)
    ensures exists m :: m in members && Prints(e, m)
  {
    var p :| 0 <= p < |members| && Rendered(members)[p] == e;
    assert Prints(e, members[p]) && members[p] in members;
  }

  /** Entry by entry the two objects agree. */
  ghost predicate EntriesAgree(v: Value, w: Value, e: Entry)
    requires v.Obj? && w.Obj?
  {
    exists m, n :: m in v.members && n in w.members && Prints(e, m) && Prints(e, n) && Same(m.value, n.value)
  }

  lemma NoEntries(entries: seq<Entry>, others: seq<Entry>, a: Text, b: Text)
    requires entries == [] || others == []
    requires EntriesTail(entries, a) == EntriesTail(others, b)
    ensures entries == others && a == b
  {
    if entries != [] { EntriesTailStep(entries, a); }
    if others != [] { EntriesTailStep(others, b); }
    assert a == EntriesTail(entries, a)[1..] && b == EntriesTail(others, b)[1..];
  }

  lemma AfterFirstAgree(entries: seq<Entry>, others: seq<Entry>, a: Text, b: Text)
    requires entries != [] && others != [] && AfterFirst(entries, a) == AfterFirst(others, b)
    ensures if |entries| == 1 then |others| == 1 && a == b
            else |others| > 1 && EntriesTail(entries[1..], a) == EntriesTail(others[1..], b)
  {
    var x, y := AfterFirst(entries, a), AfterFirst(others, b);
    assert x[0] == y[0] && x[1..] == y[1..];
    assert x[1..] == if |entries| == 1 then a else EntriesTail(entries[1..], a);
    assert y[1..] == if |others| == 1 then b else EntriesTail(others[1..], b);
  }

  ghost predicate AllAgree(v: Value, w: Value, entries: seq<Entry>, others: seq<Entry>)
    requires v.Obj? && w.Obj?
  {
    |entries| == |others| && forall i :: 0 <= i < |entries| ==>
        entries[i] == others[i] && EntriesAgree(v, w, entries[i])
  }

  lemma TailsAgree(v: Value, w: Value, entries: seq<Entry>, others: seq<Entry>)
    requires v.Obj? && w.Obj? && entries != [] && others != []
    requires entries[0] == others[0] && EntriesAgree(v, w, entries[0]) && AllAgree(v, w, entries[1..], others[1..])
    ensures AllAgree(v, w, entries, others)
  {
    forall i | 0 < i < |entries| ensures entries[i] == others[i] && EntriesAgree(v, w, entries[i]) {
      assert entries[1..][i - 1] == entries[i] && others[1..][i - 1] == others[i];
    }
  }

  /** Every entry is a printed member of the object. */
  ghost predicate AllPrinted(v: Value, entries: seq<Entry>)
    requires v.Obj?
  {
    forall i :: 0 <= i < |entries| ==> entries[i] in Rendered(v.members)
  }

  lemma {:induction false} EntriesSelfDelimiting(v: Value, w: Value, entries: seq<Entry>, others: seq<Entry>, a: Text,
                                                 b: Text)
    requires WellFormed(v) && WellFormed(w) && v.Obj? && w.Obj?
    requires AllPrinted(v, entries) && AllPrinted(w, others)
    requires EntriesTail(entries, a) == EntriesTail(others, b)
    ensures AllAgree(v, w, entries, others) && a == b
    decreases v, 1, |entries|
  {
    if entries == [] || others == [] {
      NoEntries(entries, others, a, b);
    } else {
      FirstEntriesAgree(v, w, entries, others, a, b);
      AfterFirstAgree(entries, others, a, b);
      if |entries| > 1 {
        EntriesSelfDelimiting(v, w, entries[1..], others[1..], a, b);
        TailsAgree(v, w, entries, others);
      }
    }
  }

  lemma FirstEntriesAgree(v: Value, w: Value, entries: seq<Entry>, others: seq<Entry>, a: Text, b: Text)
    requires WellFormed(v) && WellFormed(w) && v.Obj? && w.Obj? && entries != [] && others != []
    requires entries[0] in Rendered(v.members) && others[0] in Rendered(w.members)
    requires EntriesTail(entries, a) == EntriesTail(others, b)
    ensures entries[0] == others[0] && AfterFirst(entries, a) == AfterFirst(others, b)
    ensures EntriesAgree(v, w, entries[0])
    decreases v, 1, 0
  {
    EntriesTailStep(entries, a);
    EntriesTailStep(others, b);
    var e, f := entries[0], others[0];
    var x, y := e.text + AfterFirst(entries, a), f.text + AfterFirst(others, b);
    QuoteSelfDelimiting(e.key, f.key, [COLON] + x, [COLON] + y);
    assert x == ([COLON] + x)[1..] && y == ([COLON] + y)[1..];
    EntrySelfDelimiting(v, w, e, f, AfterFirst(entries, a), AfterFirst(others, b));
  }

  lemma EntrySelfDelimiting(v: Value, w: Value, e: Entry, f: Entry, x: Text, y: Text)
    requires WellFormed(v) && WellFormed(w) && v.Obj? && w.Obj?
    requires e in Rendered(v.members) && f in Rendered(w.members) && e.key == f.key
    requires Ends(x) && Ends(y) && e.text + x == f.text + y
    ensures e == f && x == y && EntriesAgree(v, w, e)
    decreases v, 0
  {
    EntryIsMember(v.members, e);
    EntryIsMember(w.members, f);
    var m :| m in v.members && Prints(e, m);
    var n :| n in w.members && Prints(f, n);
    SelfDelimiting(m.value, n.value, x, y);
  }

  lemma EntriesGiveMembers(v: Value, w: Value, entries: seq<Entry>)
    requires WellFormed(v) && v.Obj? && w.Obj?
    requires forall e :: e in entries <==> e in Rendered(v.members)
    requires forall e :: e in entries <==> e in Rendered(w.members)
    requires forall e :: e in entries ==> EntriesAgree(v, w, e)
    ensures Same(v, w)
  {
    forall m | m in v.members ensures exists n :: n in w.members && n.key == m.key && Same(m.value, n.value) {
      MemberIsEntry(v.members, m);
    }
    EntriesGiveKeys(w.members, v.members);
  }

  lemma EntriesGiveKeys(members: seq<Member>, others: seq<Member>)
    requires forall e :: e in Rendered(members) ==> e in Rendered(others)
    ensures KeysWithin(members, others)
  {
    forall m | m in members ensures exists n :: n in others && n.key == m.key {
      MemberIsEntry(members, m);
      EntryIsMember(others, Entry(m.key, Stable(m.value)));
    }
  }

  lemma MemberIsEntry(members: seq<Member>, m: Member)
    requires m in members
    ensures Entry(m.key, Stable(m.value)) in Rendered(members)
  {
    var p :| 0 <= p < |members| && members[p] == m;
    assert Rendered(members)[p] == Entry(m.key, Stable(m.value));
  }

  lemma SameKeySameMember(members: seq<Member>, m: Member, n: Member)
    requires DistinctKeys(members) && m in members && n in members && m.key == n.key
    ensures m == n
  {
  }

  // ---------- equal values print alike ----------

  lemma NoTextPrintsNothing(items: seq<Value>)
    requires NoText(items)
    ensures JoinItems(items) == []
  {
    assert items == [] || items[0] == Undefined;
  }

  lemma {:induction false} SamePrintsAlike(v: Value, w: Value)
    requires WellFormed(v) && WellFormed(w) && Same(v, w)
    ensures Stable(v) == Stable(w)
    decreases v, 1
  {
    match v
    case Arr(items) =>
      if SameItems(items, w.items) {
        SameItemsPrintAlike(v, items, w.items);
      } else {
        NoTextPrintsNothing(items);
        NoTextPrintsNothing(w.items);
      }
    case Obj(members) =>
      MembersPrintAlike(v, w);
      OthersPrintAlike(members, w.members);
      EntriesWithin(members, w.members);
      EntriesWithin(w.members, members);
      SortedAlike(Rendered(members), Rendered(w.members));
    case _ =>
  }

  lemma {:induction false} SameItemsPrintAlike(v: Value, items: seq<Value>, others: seq<Value>)
    requires |items| == |others|
    requires forall i :: 0 <= i < |items| ==>
               WellFormed(items[i]) && WellFormed(others[i]) && items[i] < v && Same(items[i], others[i])
    ensures JoinItems(items) == JoinItems(others)
    decreases v, 0, |items|
  {
    if items != [] {
      SamePrintsAlike(items[0], others[0]);
      SameItemsPrintAlike(v, items[1..], others[1..]);
    }
  }

  ghost predicate PrintedIn(m: Member, others: seq<Member>) {
    Entry(m.key, Stable(m.value)) in Rendered(others)
  }

  lemma MembersPrintAlike(v: Value, w: Value)
    requires WellFormed(v) && WellFormed(w) && v.Obj? && w.Obj? && SameMembers(v.members, w.members)
    ensures forall m :: m in v.members ==> PrintedIn(m, w.members)
    decreases v, 0
  {
    forall m | m in v.members ensures PrintedIn(m, w.members) {
      var n :| n in w.members && n.key == m.key && Same(m.value, n.value);
      SamePrintsAlike(m.value, n.value);
      MemberIsEntry(w.members, n);
    }
  }

  lemma OthersPrintAlike(members: seq<Member>, others: seq<Member>)
    requires DistinctKeys(others) && KeysWithin(others, members)
    requires forall m :: m in members ==> PrintedIn(m, others)
    ensures forall n :: n in others ==> PrintedIn(n, members)
  {
    forall n | n in others ensures PrintedIn(n, members) {
      var m :| m in members && m.key == n.key;
      assert PrintedIn(m, others);
      EntryIsMember(others, Entry(m.key, Stable(m.value)));
      var n' :| n' in others && Prints(Entry(m.key, Stable(m.value)), n');
      SameKeySameMember(others, n, n');
      MemberIsEntry(members, m);
    }
  }

  lemma EntriesWithin(members: seq<Member>, others: seq<Member>)
    requires forall m :: m in members ==> PrintedIn(m, others)
    ensures forall e :: e in Rendered(members) ==> e in Rendered(others)
  {
    forall e | e in Rendered(members) ensures e in Rendered(others) {
      EntryIsMember(members, e);
      var m :| m in members && Prints(e, m);
      assert PrintedIn(m, others);
    }
  }

  lemma SortedAlike(xs: seq<Entry>, ys: seq<Entry>)
    requires DistinctEntryKeys(xs) && DistinctEntryKeys(ys) && forall e :: e in xs <==> e in ys
    ensures Sort(xs) == Sort(ys)
  {
    SortSorts(xs);
    SortSorts(ys);
    AscendingUnique(Sort(xs), Sort(ys));
  }

  /** Two values get the same text exactly when they are equal as JSON values. */
  lemma StableIsCanonical(v: Value, w: Value)
    requires WellFormed(v) && WellFormed(w)
    ensures Stable(v) == Stable(w) <==> Same(v, w)
  {
    if Stable(v) == Stable(w) {
      SelfDelimiting(v, w, [], []);
    } else if Same(v, w) {
      SamePrintsAlike(v, w);
    }
  }

  /** The text does not depend on the order in which an object's members were inserted. */
  lemma InsertionOrderIgnored(members: seq<Member>, others: seq<Member>)
    requires DistinctKeys(members) && DistinctKeys(others) && forall m :: m in members <==> m in others
    ensures Stable(Obj(members)) == Stable(Obj(others))
  {
    forall m | m in members ensures PrintedIn(m, others) {
      MemberIsEntry(others, m);
    }
    forall m | m in others ensures PrintedIn(m, members) {
      MemberIsEntry(members, m);
    }
    EntriesWithin(members, others);
    EntriesWithin(others, members);
    SortedAlike(Rendered(members), Rendered(others));
  }

  /** Why the one exception is needed: an array of one undefined element prints as the empty array. */
  lemma UndefinedElementCollides()
    ensures Stable(Arr([Undefined])) == Stable(Arr([])) == [OPEN_BRACKET, CLOSE_BRACKET]
  {
    NoTextPrintsNothing([Undefined]);
  }
}
