/**
 A reader of JSON text (RFC 8259), for what the canonical serialiser prints: it reads every value back, with the members
 of each object in ascending order of their keys.
 */
module JsonReader {
  import opened Wrappers
  import opened StableStringify

  datatype Read<+T> = Read(value: T, rest: Text)

  // ---------- strings ----------

  function HexValue(u: Unit): Option<nat> {
    if 48 <= u <= 57 then Some(u - 48) else if 97 <= u <= 102 then Some(u - 87)
    else if 65 <= u <= 70 then Some(u - 55) else None
  }

  function FourDigits(t: Text): Option<Unit>
    requires |t| >= 4
  {
    match (HexValue(t[0]), HexValue(t[1]), HexValue(t[2]), HexValue(t[3]))
    case (Some(a), Some(b), Some(c), Some(d)) =>
      if a < 16 && b < 16 && c < 16 && d < 16 then Some(a * 4096 + b * 256 + c * 16 + d) else None
    case _ => None
  }

  /** What an escape other than \\u stands for. */
  function Escaped(u: Unit): Option<Unit> {
    if u in {34, 47, 92} then Some(u)
    else if u == 98 then Some(8) else if u == 102 then Some(12) else if u == 110 then Some(10)
    else if u == 114 then Some(13) else if u == 116 then Some(9) else None
  }

  /** The next unit of a string literal. */
  function ReadUnit(t: Text): (r: Option<Read<Unit>>)
    ensures r.Some? ==> |r.value.rest| < |t|
  {
    if t == [] || t[0] == QUOTE || t[0] < 32 then None
    else if t[0] != BACKSLASH then Some(Read(t[0], t[1..]))
    else if |t| == 1 then None
    else if t[1] != LETTER_U then
      (match Escaped(t[1]) case Some(u) => Some(Read(u, t[2..])) case None => None)
    else if |t| < 6 then None
    else match FourDigits(t[2..6]) case Some(u) => Some(Read(u, t[6..])) case None => None
  }

  /** The rest of a literal, up to the closing quotation mark. */
  function ReadChars(t: Text): (r: Option<Read<Text>>)
    ensures r.Some? ==> |r.value.rest| < |t|
    decreases |t|
  {
    if t == [] then None
    else if t[0] == QUOTE then Some(Read([], t[1..]))
    else match ReadUnit(t)
      case None => None
      case Some(first) =>
        match ReadChars(first.rest)
        case None => None
        case Some(more) => Some(Read([first.value] + more.value, more.rest))
  }

  lemma HexDigitRead(d: nat)
    requires d < 16
    ensures HexValue(HexDigit(d)) == Some(d)
  {
  }

  lemma Hex4Read(u: Unit)
    ensures FourDigits(Hex4(u)) == Some(u)
  {
    HexDigitRead(u / 16 / 16 / 16);
    HexDigitRead(u / 16 / 16 % 16);
    HexDigitRead(u / 16 % 16);
    HexDigitRead(u % 16);
  }

  lemma EscapedUnitRead(u: Unit, lone: bool, rest: Text)
    ensures ReadUnit(EscapeUnit(u, lone) + rest) == Some(Read(u, rest))
    ensures (EscapeUnit(u, lone) + rest)[0] != QUOTE
  {
    var t := EscapeUnit(u, lone) + rest;
    if t[0] == BACKSLASH {
      if t[1] == LETTER_U {
        Hex4Read(u);
        assert t[2..6] == Hex4(u) && t[6..] == rest;
      } else {
        assert t[2..] == rest;
      }
    } else {
      assert t[1..] == rest;
    }
  }

  lemma {:induction false} CharsRead(s: Text, i: nat, after: Text)
    requires i <= |s|
    ensures ReadChars(Tail(s, i, after)) == Some(Read(s[i..], after))
    decreases |s| - i
  {
    if i == |s| {
      TailEnd(s, after);
      assert Tail(s, i, after)[1..] == after && s[i..] == [];
    } else {
      TailStep(s, i, after);
      EscapedUnitRead(s[i], Lone(s, i), Tail(s, i + 1, after));
      CharsRead(s, i + 1, after);
      assert s[i..] == [s[i]] + s[i + 1..];
    }
  }

  /** Every string is read back from its literal, and the reader stops at its end. */
  lemma QuoteReadBack(s: Text, after: Text)
    ensures (Quote(s) + after)[0] == QUOTE && ReadChars((Quote(s) + after)[1..]) == Some(Read(s, after))
  {
    assert (Quote(s) + after)[1..] == Tail(s, 0, after);
    CharsRead(s, 0, after);
    assert s[0..] == s;
  }

  // ---------- values ----------

  function NumberLength(t: Text): (n: nat)
    ensures n <= |t| && (n < |t| ==> !NumberUnit(t[n])) && forall i :: 0 <= i < n ==> NumberUnit(t[i])
  {
    if t == [] || !NumberUnit(t[0]) then 0 else 1 + NumberLength(t[1..])
  }

  function ReadWord(t: Text, word: Text, v: Value): (r: Option<Read<Value>>)
    requires word != []
    ensures r.Some? ==> |r.value.rest| < |t|
  {
    if word <= t then Some(Read(v, t[|word|..])) else None
  }

  /** A value at the front. The word `undefined` is no JSON, but the serialiser prints it. */
  function ReadValue(t: Text): (r: Option<Read<Value>>)
    ensures r.Some? ==> |r.value.rest| < |t|
    decreases |t|, 0
  {
    if t == [] then None
    else if t[0] == 110 then ReadWord(t, NULL_TEXT, Null)
    else if t[0] == 116 then ReadWord(t, TRUE_TEXT, Bool(true))
    else if t[0] == 102 then ReadWord(t, FALSE_TEXT, Bool(false))
    else if t[0] == LETTER_U then ReadWord(t, UNDEFINED_TEXT, Undefined)
    else if t[0] == 45 || 48 <= t[0] <= 57 then Some(Read(Number(t[..NumberLength(t)]), t[NumberLength(t)..]))
    else if t[0] == QUOTE then
      (match ReadChars(t[1..]) case Some(s) => Some(Read(Str(s.value), s.rest)) case None => None)
    else if t[0] == OPEN_BRACKET then
      if |t| > 1 && t[1] == CLOSE_BRACKET then Some(Read(Arr([]), t[2..]))
      else match ReadItems(t[1..]) case Some(items) => Some(Read(Arr(items.value), items.rest)) case None => None
    else if t[0] == OPEN_BRACE then
      if |t| > 1 && t[1] == CLOSE_BRACE then Some(Read(Obj([]), t[2..]))
      else match ReadMembers(t[1..]) case Some(ms) => Some(Read(Obj(ms.value), ms.rest)) case None => None
    else None
  }

  /** An element; nothing at all stands for undefined. */
  function ReadItem(t: Text): (r: Option<Read<Value>>)
    ensures r.Some? ==> |r.value.rest| <= |t|
    decreases |t|, 1
  {
    if t != [] && (t[0] == COMMA || t[0] == CLOSE_BRACKET) then Some(Read(Undefined, t)) else ReadValue(t)
  }

  function ReadItems(t: Text): (r: Option<Read<seq<Value>>>)
    ensures r.Some? ==> |r.value.rest| < |t|
    decreases |t|, 2
  {
    match ReadItem(t)
    case None => None
    case Some(first) =>
      if first.rest == [] then None
      else if first.rest[0] == CLOSE_BRACKET then Some(Read([first.value], first.rest[1..]))
      else if first.rest[0] != COMMA then None
      else match ReadItems(first.rest[1..])
        case None => None
        case Some(more) => Some(Read([first.value] + more.value, more.rest))
  }

  function ReadMember(t: Text): (r: Option<Read<Member>>)
    ensures r.Some? ==> |r.value.rest| < |t|
    decreases |t|, 1
  {
    if t == [] || t[0] != QUOTE then None
    else match ReadChars(t[1..])
      case None => None
      case Some(key) =>
        if key.rest == [] || key.rest[0] != COLON then None
        else match ReadValue(key.rest[1..])
          case None => None
          case Some(v) => Some(Read(Member(key.value, v.value), v.rest))
  }

  function ReadMembers(t: Text): (r: Option<Read<seq<Member>>>)
    ensures r.Some? ==> |r.value.rest| < |t|
    decreases |t|, 2
  {
    match ReadMember(t)
    case None => None
    case Some(first) =>
      if first.rest == [] then None
      else if first.rest[0] == CLOSE_BRACE then Some(Read([first.value], first.rest[1..]))
      else if first.rest[0] != COMMA then None
      else match ReadMembers(first.rest[1..])
        case None => None
        case Some(more) => Some(Read([first.value] + more.value, more.rest))
  }

  // ---------- reading back what was printed ----------

  /** w is v as JSON can say it: null for what is no finite number, keys in ascending order. */
  ghost predicate ReadsAs(v: Value, w: Value)
    decreases v
  {
    match v
    case Undefined => w == Undefined
    case Null => w == Null
    case NotFinite => w == Null
    case Bool(b) => w == Bool(b)
    case Number(text) => w == Number(text)
    case Str(units) => w == Str(units)
    case Arr(items) => w.Arr? && if NoText(items) then w.items == [] else ItemsReadAs(items, w.items)
    case Obj(members) => w.Obj? && MembersReadAs(members, w.members)
  }

  ghost predicate ItemsReadAs(items: seq<Value>, others: seq<Value>)
    decreases items
  {
    |others| == |items| && forall i | 0 <= i < |items| :: ReadsAs(items[i], others[i])
  }

  /** The same keys, ascending, each with its value. */
  ghost predicate MembersReadAs(members: seq<Member>, others: seq<Member>)
    decreases members
  {
    && |others| == |members| && KeysAscend(others) && KeysWithin(others, members)
    && forall m | m in members :: ReadIn(m, others)
  }

  ghost predicate ReadIn(m: Member, others: seq<Member>)
    decreases m
  {
    exists n :: n in others && n.key == m.key && ReadsAs(m.value, n.value)
  }

  predicate KeysAscend(members: seq<Member>) {
    forall i, j :: 0 <= i < j < |members| ==> Less(members[i].key, members[j].key)
  }

  lemma NumberReadBack(text: Text, after: Text)
    requires NumberText(text) && Ends(after)
    ensures ReadValue(text + after) == Some(Read(Number(text), after))
  {
    var t := text + after;
    assert forall i :: 0 <= i < |text| ==> t[i] == text[i];
    assert |text| < |t| ==> t[|text|] == after[0];
    assert NumberLength(t) == |text|;
    assert t[..|text|] == text && t[|text|..] == after;
  }

  lemma WordReadBack(word: Text, v: Value, after: Text)
    requires word != []
    ensures ReadWord(word + after, word, v) == Some(Read(v, after))
  {
    assert (word + after)[|word|..] == after;
  }

  /** Every well-formed value is read back from its text, whatever may follow it. */
  lemma {:induction false} ValueReadBack(v: Value, after: Text) returns (w: Value)
    requires WellFormed(v) && Ends(after)
    ensures ReadsAs(v, w) && ReadValue(Stable(v) + after) == Some(Read(w, after))
    decreases v, 3
  {
    var t := Stable(v) + after;
    assert t[0] == Stable(v)[0];
    match v
    case Undefined => w := Undefined; WordReadBack(UNDEFINED_TEXT, w, after);
    case Null => w := Null; WordReadBack(NULL_TEXT, w, after);
    case NotFinite => w := Null; WordReadBack(NULL_TEXT, w, after);
    case Bool(b) => w := v; WordReadBack(if b then TRUE_TEXT else FALSE_TEXT, w, after);
    case Number(text) => w := v; NumberReadBack(text, after);
    case Str(units) => w := v; QuoteReadBack(units, after);
    case Arr(items) => w := ArrayReadBack(v, after);
    case Obj(members) => w := ObjectReadBack(v, after);
  }

  lemma ArrayReadBack(v: Value, after: Text) returns (w: Value)
    requires WellFormed(v) && v.Arr?
    ensures ReadsAs(v, w) && ReadValue(Stable(v) + after) == Some(Read(w, after))
    decreases v, 2
  {
    var t := Stable(v) + after;
    assert t[0] == OPEN_BRACKET && t[1..] == ItemsTail(v.items, after);
    if NoText(v.items) {
      assert JoinItems(v.items) == [];
      assert Stable(v) == [OPEN_BRACKET, CLOSE_BRACKET];
      assert t[1] == CLOSE_BRACKET && t[2..] == after;
      w := Arr([]);
    } else {
      var items := ItemsReadBack(v, v.items, after);
      NotClosed(v.items, after);
      assert t[1] == t[1..][0];
      w := Arr(items);
    }
  }

  lemma NotClosed(items: seq<Value>, after: Text)
    requires !NoText(items) && forall i :: 0 <= i < |items| ==> WellFormed(items[i])
    ensures ItemsTail(items, after)[0] != CLOSE_BRACKET
  {
    ItemsTailStep(items, after);
    assert |items| == 1 ==> items == [items[0]];
    if !items[0].Undefined? {
      assert ItemText(items[0]) == Stable(items[0]);
      StartsValue(items[0]);
    }
  }

  lemma StartsValue(v: Value)
    requires WellFormed(v)
    ensures Stable(v) != [] && Stable(v)[0] !in {COMMA, CLOSE_BRACKET, CLOSE_BRACE}
  {
  }

  lemma ItemReadBack(v: Value, after: Text) returns (w: Value)
    requires WellFormed(v) && after != [] && (after[0] == COMMA || after[0] == CLOSE_BRACKET)
    ensures ReadsAs(v, w) && ReadItem(ItemText(v) + after) == Some(Read(w, after))
    decreases v, 4
  {
    if v.Undefined? {
      assert ItemText(v) + after == after;
      w := Undefined;
    } else {
      StartsValue(v);
      assert (Stable(v) + after)[0] == Stable(v)[0];
      w := ValueReadBack(v, after);
    }
  }

  lemma {:induction false} ItemsReadBack(v: Value, items: seq<Value>, after: Text) returns (ws: seq<Value>)
    requires items != [] && forall i :: 0 <= i < |items| ==> WellFormed(items[i]) && items[i] < v
    ensures ItemsReadAs(items, ws) && ReadItems(ItemsTail(items, after)) == Some(Read(ws, after))
    decreases v, 1, |items|
  {
    ItemsTailStep(items, after);
    var rest := if |items| == 1 then [CLOSE_BRACKET] + after else [COMMA] + ItemsTail(items[1..], after);
    var first := ItemReadBack(items[0], rest);
    if |items| == 1 {
      assert rest[1..] == after;
      ws := [first];
    } else {
      assert rest[1..] == ItemsTail(items[1..], after);
      var more := ItemsReadBack(v, items[1..], after);
      ws := [first] + more;
      forall i | 0 <= i < |items| ensures ReadsAs(items[i], ws[i]) {
        if i > 0 { assert items[i] == items[1..][i - 1] && ws[i] == more[i - 1]; }
      }
    }
  }

  // ---------- objects ----------

  /** What reading an entry gives: its key, and its member's value as read. */
  ghost predicate EntryReadAs(v: Value, e: Entry, n: Member)
    requires v.Obj?
  {
    n.key == e.key && exists m :: m in v.members && Prints(e, m) && ReadsAs(m.value, n.value)
  }

  lemma EntryReadBack(v: Value, e: Entry, after: Text) returns (n: Member)
    requires WellFormed(v) && v.Obj? && e in Rendered(v.members) && Ends(after)
    ensures EntryReadAs(v, e, n)
    ensures ReadMember(Quote(e.key) + ([COLON] + (e.text + after))) == Some(Read(n, after))
    decreases v, 0
  {
    var p :| 0 <= p < |v.members| && Rendered(v.members)[p] == e;
    var m := v.members[p];
    var w := ValueReadBack(m.value, after);
    n := Member(e.key, w);
    var tail := [COLON] + (e.text + after);
    QuoteReadBack(e.key, tail);
    assert tail[1..] == e.text + after;
    assert m in v.members && Prints(e, m);
  }

  lemma LastMemberRead(t: Text, n: Member, rest: Text, after: Text)
    requires ReadMember(t) == Some(Read(n, rest)) && rest == [CLOSE_BRACE] + after
    ensures ReadMembers(t) == Some(Read([n], after))
  {
    assert rest[1..] == after;
  }

  lemma OneMemberRead(t: Text, n: Member, rest: Text, more: seq<Member>, after: Text)
    requires ReadMember(t) == Some(Read(n, rest)) && rest != [] && rest[0] == COMMA
    requires ReadMembers(rest[1..]) == Some(Read(more, after))
    ensures ReadMembers(t) == Some(Read([n] + more, after))
  {
  }

  ghost predicate AllReadAs(v: Value, entries: seq<Entry>, ns: seq<Member>)
    requires v.Obj?
  {
    |ns| == |entries| && forall i :: 0 <= i < |entries| ==> EntryReadAs(v, entries[i], ns[i])
  }

  lemma AllReadAsOneMore(v: Value, entries: seq<Entry>, first: Member, more: seq<Member>)
    requires v.Obj? && entries != [] && EntryReadAs(v, entries[0], first) && AllReadAs(v, entries[1..], more)
    ensures AllReadAs(v, entries, [first] + more)
  {
    var ns := [first] + more;
    forall i | 0 <= i < |entries| ensures EntryReadAs(v, entries[i], ns[i]) {
      if i > 0 { assert entries[i] == entries[1..][i - 1] && ns[i] == more[i - 1]; }
    }
  }

  /** The first entry, as read, with what follows it left over. */
  lemma FirstEntryReadBack(v: Value, entries: seq<Entry>, after: Text) returns (n: Member)
    requires WellFormed(v) && v.Obj? && entries != [] && AllPrinted(v, entries)
    ensures EntryReadAs(v, entries[0], n)
    ensures ReadMember(EntriesTail(entries, after)) == Some(Read(n, AfterFirst(entries, after)))
    decreases v, 1, 0
  {
    EntriesTailStep(entries, after);
    n := EntryReadBack(v, entries[0], AfterFirst(entries, after));
  }

  lemma RestOfEntries(v: Value, entries: seq<Entry>, after: Text)
    requires v.Obj? && |entries| > 1 && AllPrinted(v, entries)
    ensures AllPrinted(v, entries[1..])
    ensures AfterFirst(entries, after)[0] == COMMA
    ensures AfterFirst(entries, after)[1..] == EntriesTail(entries[1..], after)
  {
  }

  lemma {:induction false} EntriesReadBack(v: Value, entries: seq<Entry>, after: Text) returns (ns: seq<Member>)
    requires WellFormed(v) && v.Obj? && entries != [] && AllPrinted(v, entries)
    ensures AllReadAs(v, entries, ns) && ReadMembers(EntriesTail(entries, after)) == Some(Read(ns, after))
    decreases v, 1, |entries|
  {
    var first := FirstEntryReadBack(v, entries, after);
    var rest := AfterFirst(entries, after);
    if |entries| == 1 {
      LastMemberRead(EntriesTail(entries, after), first, rest, after);
      ns := [first];
    } else {
      RestOfEntries(v, entries, after);
      var more := EntriesReadBack(v, entries[1..], after);
      OneMemberRead(EntriesTail(entries, after), first, rest, more, after);
      AllReadAsOneMore(v, entries, first, more);
      ns := [first] + more;
    }
  }

  lemma {:induction false} InsertLength(e: Entry, sorted: seq<Entry>)
    ensures |Insert(e, sorted)| == |sorted| + 1
  {
    if sorted != [] && !Less(e.key, sorted[0].key) { InsertLength(e, sorted[1..]); }
  }

  lemma {:induction false} SortLength(entries: seq<Entry>)
    ensures |Sort(entries)| == |entries|
  {
    if entries != [] {
      SortLength(entries[1..]);
      InsertLength(entries[0], Sort(entries[1..]));
    }
  }

  lemma BracesRead(t: Text, ns: seq<Member>, after: Text)
    requires |t| > 1 && t[0] == OPEN_BRACE
    requires if t[1] == CLOSE_BRACE then ns == [] && after == t[2..] else ReadMembers(t[1..]) == Some(Read(ns, after))
    ensures ReadValue(t) == Some(Read(Obj(ns), after))
  {
  }

  lemma EmptyObjectText(after: Text)
    ensures var t := [OPEN_BRACE] + [] + [CLOSE_BRACE] + after;
      |t| > 1 && t[0] == OPEN_BRACE && t[1] == CLOSE_BRACE && t[2..] == after
  {
  }

  lemma {:induction false} ObjectReadBack(v: Value, after: Text) returns (w: Value)
    requires WellFormed(v) && v.Obj?
    ensures ReadsAs(v, w) && ReadValue(Stable(v) + after) == Some(Read(w, after))
    decreases v, 2
  {
    var entries := Sort(Rendered(v.members));
    SortSorts(Rendered(v.members));
    SortLength(Rendered(v.members));
    var ns := [];
    if entries == [] {
      EmptyObjectText(after);
      assert JoinEntries(entries) == [];
    } else {
      ns := EntriesReadBack(v, entries, after);
      EntriesTailStep(entries, after);
      ObjectTail(v, after);
      ObjectOpens(Stable(v) + after, JoinEntries(entries) + [CLOSE_BRACE] + after);
    }
    BracesRead(Stable(v) + after, ns, after);
    MembersAllRead(v, entries, ns);
    w := Obj(ns);
  }

  lemma ObjectOpens(t: Text, rest: Text)
    requires t != [] && t[1..] == rest && rest != []
    ensures |t| > 1 && t[1] == rest[0]
  {
  }

  lemma MembersAllRead(v: Value, entries: seq<Entry>, ns: seq<Member>)
    requires WellFormed(v) && v.Obj? && |ns| == |entries| == |v.members| && Ascending(entries)
    requires forall x :: x in entries <==> x in Rendered(v.members)
    requires AllReadAs(v, entries, ns)
    ensures MembersReadAs(v.members, ns)
  {
    forall m | m in v.members ensures ReadIn(m, ns) {
      var p :| 0 <= p < |v.members| && v.members[p] == m;
      assert Rendered(v.members)[p] in Rendered(v.members);
      var i :| 0 <= i < |entries| && entries[i] == Rendered(v.members)[p];
      var other :| other in v.members && Prints(entries[i], other) && ReadsAs(other.value, ns[i].value);
      SameKeySameMember(v.members, other, m);
      assert ns[i] in ns;
    }
    forall n | n in ns ensures exists m :: m in v.members && m.key == n.key {
      var i :| 0 <= i < |ns| && ns[i] == n;
      assert EntryReadAs(v, entries[i], n);
    }
  }

  /** So printing a value and reading the text gives the same JSON value, with nothing left over. */
  lemma StableReadBack(v: Value) returns (w: Value)
    requires WellFormed(v)
    ensures ReadValue(Stable(v)) == Some(Read(w, [])) && ReadsAs(v, w) && Same(v, w)
  {
    w := ValueReadBack(v, []);
    assert Stable(v) + [] == Stable(v);
    ReadsAsSame(v, w);
  }

  lemma {:induction false} ReadsAsSame(v: Value, w: Value)
    requires ReadsAs(v, w)
    ensures Same(v, w)
    decreases v, 1
  {
    match v
    case Arr(items) => if !NoText(items) { ItemsReadSame(v, items, w.items); }
    case Obj(members) => MembersReadSame(v, members, w.members);
    case _ =>
  }

  lemma ItemsReadSame(v: Value, items: seq<Value>, others: seq<Value>)
    requires v == Arr(items) && ItemsReadAs(items, others)
    ensures SameItems(items, others)
    decreases v, 0
  {
    forall i | 0 <= i < |items| ensures Same(items[i], others[i]) { ReadsAsSame(items[i], others[i]); }
  }

  lemma MemberReadSame(m: Member, others: seq<Member>) returns (n: Member)
    requires ReadIn(m, others)
    ensures n in others && n.key == m.key && Same(m.value, n.value)
    decreases m.value, 2
  {
    n :| n in others && n.key == m.key && ReadsAs(m.value, n.value);
    ReadsAsSame(m.value, n.value);
  }

  lemma MembersReadSame(v: Value, members: seq<Member>, others: seq<Member>)
    requires v == Obj(members) && MembersReadAs(members, others)
    ensures SameMembers(members, others)
    decreases v, 0
  {
    forall m | m in members ensures exists n :: n in others && n.key == m.key && Same(m.value, n.value) {
      var n := MemberReadSame(m, others);
    }
  }
}
