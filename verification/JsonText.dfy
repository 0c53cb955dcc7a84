/** JSON values, the text JSON.stringify gives them, and that the text determines the value. */
module JsonText {
  import opened Results
  import Decimals

  type Text = seq<char>

  // ---------- numbers ----------

  function PowerOfTwo(n: nat): (r: nat)
    ensures r > 0
  {
    if n == 0 then 1 else 2 * PowerOfTwo(n - 1)
  }

  function Scaled(m: int, e: int): real {
    if e >= 0 then (m * PowerOfTwo(e)) as real else m as real / PowerOfTwo(-e) as real
  }

  predicate InRange(m: int, e: int) {
    -0x20_0000_0000_0000 < m < 0x20_0000_0000_0000 && -1074 <= e <= 971
  }

  /** The finite doubles: 53 bits times a power of two. */
  ghost predicate IsDouble(x: real) {
    x == 0.0 || exists m, e :: InRange(m, e) && x == Scaled(m, e)
  }

  type Double = x: real | IsDouble(x) witness 0.0

  // ---------- values ----------

  /** Objects keep their members in order, as JavaScript does. */
  datatype Json = Null | Boolean(b: bool) | Number(n: Double) | Str(s: Text) | Arr(items: Items) | Obj(members: Members)

  datatype Items = NoItems | Item(head: Json, tail: Items)

  datatype Members = NoMembers | Member(key: Text, value: Json, rest: Members)

  /** How numbers are written: a parameter, since only its being unambiguous matters. */
  type Numerals = Double -> Text

  predicate NumeralChar(c: char) {
    '0' <= c <= '9' || c == '-' || c == '+' || c == '.' || c == 'e'
  }

  /** The numbers in s are written unambiguously. */
  ghost predicate LawfulOn(num: Numerals, s: iset<Double>) {
    && (forall x :: x in s ==> num(x) != [] && forall c <- num(x) :: NumeralChar(c))
    && (forall x, y :: x in s && y in s && num(x) == num(y) ==> x == y)
  }

  ghost const ALL_DOUBLES: iset<Double> := iset x: Double | IsDouble(x)

  ghost predicate Lawful(num: Numerals) {
    LawfulOn(num, ALL_DOUBLES)
  }

  function Hex(n: nat): char
    requires n < 16
  {
    if n < 10 then '0' + n as char else 'a' + (n - 10) as char
  }

  function Escaped(c: char): Text {
    if c == '"' then ['\\', '"']
    else if c == '\\' then ['\\', '\\']
    else if c >= ' ' then [c]
    else if c == '\U{0008}' then ['\\', 'b']
    else if c == '\t' then ['\\', 't']
    else if c == '\n' then ['\\', 'n']
    else if c == '\U{000C}' then ['\\', 'f']
    else if c == '\r' then ['\\', 'r']
    else ['\\', 'u', '0', '0', Hex(c as nat / 16), Hex(c as nat % 16)]
  }

  /** A string from after its opening quote, followed by rest. */
  function PrintChars(s: Text, rest: Text): Text {
    if s == [] then ['"'] + rest else Escaped(s[0]) + PrintChars(s[1..], rest)
  }

  /** The text of a value, followed by rest. */
  function Print(num: Numerals, v: Json, rest: Text): Text {
    match v
    case Null => "null" + rest
    case Boolean(b) => (if b then "true" else "false") + rest
    case Number(n) => num(n) + rest
    case Str(s) => ['"'] + PrintChars(s, rest)
    case Arr(items) => ['['] + PrintItems(num, items, true, rest)
    case Obj(members) => ['{'] + PrintMembers(num, members, true, rest)
  }

  function Separator(first: bool): Text {
    if first then [] else [',']
  }

  function PrintItems(num: Numerals, items: Items, first: bool, rest: Text): Text {
    match items
    case NoItems => [']'] + rest
    case Item(head, tail) => Separator(first) + Print(num, head, PrintItems(num, tail, false, rest))
  }

  function PrintMembers(num: Numerals, members: Members, first: bool, rest: Text): Text {
    match members
    case NoMembers => ['}'] + rest
    case Member(key, value, tail) =>
      Separator(first) + ['"'] + PrintChars(key, [':'] + Print(num, value, PrintMembers(num, tail, false, rest)))
  }

  /** JSON.stringify */
  function Stringify(num: Numerals, v: Json): Text {
    Print(num, v, [])
  }

  // ---------- a lawful way of writing numbers ----------

  /** A way to spell a double: its 53 bits and its power of two. */
  ghost function Parts(x: Double): (p: (int, int))
    requires x != 0.0
    ensures InRange(p.0, p.1) && x == Scaled(p.0, p.1)
  {
    assert IsDouble(x);
    var m, e :| InRange(m, e) && x == Scaled(m, e);
    (m, e)
  }

  ghost function Spell(x: Double): Text {
    if x == 0.0 then "0" else Decimals.Signed(Parts(x).0) + ['e'] + Decimals.Signed(Parts(x).1)
  }

  lemma SpellInjective(x: Double, y: Double)
    requires Spell(x) == Spell(y)
    ensures x == y
  {
    SpellParts(x);
    SpellParts(y);
    if x != 0.0 && y != 0.0 {
      var p, q := Parts(x), Parts(y);
      var a, b, c, d := Decimals.Signed(p.0), Decimals.Signed(p.1), Decimals.Signed(q.0), Decimals.Signed(q.1);
      AtTheE(a, b, c, d);
      Decimals.SignedInjective(p.0, q.0);
      Decimals.SignedInjective(p.1, q.1);
    }
  }

  lemma SpellParts(x: Double)
    ensures Spell(x) != [] && (forall c <- Spell(x) :: NumeralChar(c)) && ('e' in Spell(x) <==> x != 0.0)
    ensures x != 0.0 ==> 'e' !in Decimals.Signed(Parts(x).0)
  {
    if x != 0.0 {
      Decimals.SignedChars(Parts(x).0);
      Decimals.SignedChars(Parts(x).1);
      assert Spell(x)[|Decimals.Signed(Parts(x).0)|] == 'e';
    }
  }

  lemma AtTheE(a: Text, b: Text, c: Text, d: Text)
    requires a + ['e'] + b == c + ['e'] + d && 'e' !in a && 'e' !in c
    ensures a == c && b == d
  {
    var x, y := a + ['e'] + b, c + ['e'] + d;
    assert x[|a|] == 'e' && y[|c|] == 'e';
    assert forall i :: 0 <= i < |a| ==> x[i] == a[i];
    assert forall i :: 0 <= i < |c| ==> y[i] == c[i];
    assert |a| == |c|;
    assert a == x[..|a|] && c == y[..|c|] && b == x[|a| + 1..] && d == y[|c| + 1..];
  }

  /** Numbers can be written lawfully, so what is said of lawful numerals is said of something. */
  lemma LawfulNumeralsExist()
    ensures Lawful(Spell)
  {
    forall x: Double | x in ALL_DOUBLES ensures Spell(x) != [] && forall c <- Spell(x) :: NumeralChar(c) {
      SpellParts(x);
    }
    forall x: Double, y: Double | x in ALL_DOUBLES && y in ALL_DOUBLES && Spell(x) == Spell(y) ensures x == y {
      SpellInjective(x, y);
    }
  }

  // ---------- the text determines the value ----------

  /** Every number in the value is one of s. */
  ghost predicate Within(v: Json, s: iset<Double>) {
    match v
    case Number(n) => n in s
    case Arr(items) => ItemsWithin(items, s)
    case Obj(members) => MembersWithin(members, s)
    case _ => true
  }

  ghost predicate ItemsWithin(items: Items, s: iset<Double>) {
    items.Item? ==> Within(items.head, s) && ItemsWithin(items.tail, s)
  }

  ghost predicate MembersWithin(m: Members, s: iset<Double>) {
    m.Member? ==> Within(m.value, s) && MembersWithin(m.rest, s)
  }

  /** What may follow a number without being read as part of it. */
  predicate Closed(s: Text) {
    s == [] || !NumeralChar(s[0])
  }

  lemma EscapedUnique(c: char, d: char, s: Text, t: Text)
    requires Escaped(c) + s == Escaped(d) + t
    ensures c == d && s == t
  {
    var x, y := Escaped(c), Escaped(d);
    assert (x + s)[0] == x[0] && (y + t)[0] == y[0];
    if |x| > 1 && |y| > 1 {
      assert (x + s)[1] == x[1] && (y + t)[1] == y[1];
      if |x| > 2 && |y| > 2 {
        assert (x + s)[4] == x[4] && (y + t)[4] == y[4];
        assert (x + s)[5] == x[5] && (y + t)[5] == y[5];
      }
    }
    assert |x| == |y|;
    assert (x + s)[|x|..] == s && (y + t)[|y|..] == t;
  }

  lemma FirstQuote(k: Text, rest: Text)
    ensures PrintChars(k, rest) != [] && (PrintChars(k, rest)[0] == '"' <==> k == [])
  {
    if k != [] {
      assert PrintChars(k, rest)[0] == Escaped(k[0])[0];
    }
  }

  lemma {:induction false} CharsUnique(k: Text, l: Text, s: Text, t: Text)
    requires PrintChars(k, s) == PrintChars(l, t)
    ensures k == l && s == t
  {
    FirstQuote(k, s);
    FirstQuote(l, t);
    assert k == [] <==> l == [];
    if k == [] {
      assert PrintChars(k, s)[1..] == s && PrintChars(l, t)[1..] == t;
    } else {
      EscapedUnique(k[0], l[0], PrintChars(k[1..], s), PrintChars(l[1..], t));
      CharsUnique(k[1..], l[1..], s, t);
    }
  }

  /** A numeral reaches exactly to the first character that cannot belong to one. */
  lemma NumeralExtent(x: Text, s: Text)
    requires (forall c <- x :: NumeralChar(c)) && Closed(s)
    ensures forall i :: 0 <= i < |x| ==> NumeralChar((x + s)[i])
    ensures |x| < |x + s| ==> !NumeralChar((x + s)[|x|])
  {
  }

  lemma NumeralUnique(x: Text, y: Text, s: Text, t: Text)
    requires x + s == y + t && Closed(s) && Closed(t)
    requires (forall c <- x :: NumeralChar(c)) && forall c <- y :: NumeralChar(c)
    ensures x == y && s == t
  {
    NumeralExtent(x, s);
    NumeralExtent(y, t);
    assert |x| == |y|;
    assert (x + s)[..|x|] == x && (y + t)[..|y|] == y;
    assert (x + s)[|x|..] == s && (y + t)[|y|..] == t;
  }

  /** The first character tells the kinds apart. */
  function Kind(v: Json): nat {
    match v
    case Null => 0
    case Boolean(b) => if b then 1 else 2
    case Number(_) => 3
    case Str(_) => 4
    case Arr(_) => 5
    case Obj(_) => 6
  }

  predicate Starts(kind: nat, c: char) {
    if kind == 0 then c == 'n'
    else if kind == 1 then c == 't'
    else if kind == 2 then c == 'f'
    else if kind == 3 then NumeralChar(c)
    else if kind == 4 then c == '"'
    else if kind == 5 then c == '['
    else c == '{'
  }

  lemma FirstChar(num: Numerals, v: Json, rest: Text, ns: iset<Double>)
    requires LawfulOn(num, ns) && Within(v, ns)
    ensures Print(num, v, rest) != [] && Starts(Kind(v), Print(num, v, rest)[0])
  {
    if v.Number? {
      assert num(v.n)[0] in num(v.n);
    }
  }

  lemma {:induction false} PrintUnique(num: Numerals, v: Json, w: Json, s: Text, t: Text, ns: iset<Double>)
    requires LawfulOn(num, ns) && Within(v, ns) && Within(w, ns)
    requires Closed(s) && Closed(t) && Print(num, v, s) == Print(num, w, t)
    ensures v == w && s == t
    decreases v
  {
    FirstChar(num, v, s, ns);
    FirstChar(num, w, t, ns);
    assert Kind(v) == Kind(w);
    match v
    case Null => assert Print(num, v, s)[4..] == s && Print(num, w, t)[4..] == t;
    case Boolean(b) =>
      var n := if b then 4 else 5;
      assert Print(num, v, s)[n..] == s && Print(num, w, t)[n..] == t;
    case Number(n) => NumeralUnique(num(n), num(w.n), s, t);
    case Str(x) =>
      assert Print(num, v, s)[1..] == PrintChars(x, s) && Print(num, w, t)[1..] == PrintChars(w.s, t);
      CharsUnique(x, w.s, s, t);
    case Arr(items) =>
      assert Print(num, v, s)[1..] == PrintItems(num, items, true, s) && Print(num, w, t)[1..] == PrintItems(num, w.items, true, t);
      ItemsUnique(num, items, w.items, true, s, t, ns);
    case Obj(members) =>
      assert Print(num, v, s)[1..] == PrintMembers(num, members, true, s) && Print(num, w, t)[1..] == PrintMembers(num, w.members, true, t);
      MembersUnique(num, members, w.members, true, s, t, ns);
  }

  lemma {:induction false} ItemsUnique(num: Numerals, x: Items, y: Items, first: bool, s: Text, t: Text, ns: iset<Double>)
    requires LawfulOn(num, ns) && ItemsWithin(x, ns) && ItemsWithin(y, ns)
    requires Closed(s) && Closed(t) && PrintItems(num, x, first, s) == PrintItems(num, y, first, t)
    ensures x == y && s == t
    decreases x
  {
    var n := |Separator(first)|;
    if x.Item? {
      FirstChar(num, x.head, PrintItems(num, x.tail, false, s), ns);
      assert PrintItems(num, x, first, s)[n..] == Print(num, x.head, PrintItems(num, x.tail, false, s));
    }
    if y.Item? {
      FirstChar(num, y.head, PrintItems(num, y.tail, false, t), ns);
      assert PrintItems(num, y, first, t)[n..] == Print(num, y.head, PrintItems(num, y.tail, false, t));
    }
    if x.Item? && y.Item? {
      PrintUnique(num, x.head, y.head, PrintItems(num, x.tail, false, s), PrintItems(num, y.tail, false, t), ns);
      ItemsUnique(num, x.tail, y.tail, false, s, t, ns);
    } else {
      assert x == y;
      assert PrintItems(num, x, first, s)[1..] == s && PrintItems(num, y, first, t)[1..] == t;
    }
  }

  lemma FirstMember(num: Numerals, members: Members, first: bool, rest: Text)
    ensures var p := PrintMembers(num, members, first, rest); p != [] && (p[0] == '}' <==> members.NoMembers?)
  {
  }

  lemma {:induction false} MembersUnique(num: Numerals, x: Members, y: Members, first: bool, s: Text, t: Text, ns: iset<Double>)
    requires LawfulOn(num, ns) && MembersWithin(x, ns) && MembersWithin(y, ns)
    requires Closed(s) && Closed(t) && PrintMembers(num, x, first, s) == PrintMembers(num, y, first, t)
    ensures x == y && s == t
    decreases x
  {
    var n := |Separator(first)|;
    FirstMember(num, x, first, s);
    FirstMember(num, y, first, t);
    assert x.Member? <==> y.Member?;
    if x.Member? {
      var p, q := PrintMembers(num, x.rest, false, s), PrintMembers(num, y.rest, false, t);
      assert PrintMembers(num, x, first, s)[n + 1..] == PrintChars(x.key, [':'] + Print(num, x.value, p));
      assert PrintMembers(num, y, first, t)[n + 1..] == PrintChars(y.key, [':'] + Print(num, y.value, q));
      CharsUnique(x.key, y.key, [':'] + Print(num, x.value, p), [':'] + Print(num, y.value, q));
      assert ([':'] + Print(num, x.value, p))[1..] == Print(num, x.value, p);
      assert ([':'] + Print(num, y.value, q))[1..] == Print(num, y.value, q);
      PrintUnique(num, x.value, y.value, p, q, ns);
      MembersUnique(num, x.rest, y.rest, false, s, t, ns);
    } else {
      assert PrintMembers(num, x, first, s)[1..] == s && PrintMembers(num, y, first, t)[1..] == t;
    }
  }

  /** Equal texts mean equal values, members and items in the same order, as far as the numbers
      in them are written unambiguously. */
  lemma StringifyInjective(num: Numerals, v: Json, w: Json, ns: iset<Double>)
    requires LawfulOn(num, ns) && Within(v, ns) && Within(w, ns)
    ensures Stringify(num, v) == Stringify(num, w) <==> v == w
  {
    if Stringify(num, v) == Stringify(num, w) {
      PrintUnique(num, v, w, [], [], ns);
    }
  }

  lemma {:induction false} WithinAll(v: Json)
    ensures Within(v, ALL_DOUBLES)
    decreases v
  {
    match v
    case Arr(items) => ItemsWithinAll(items);
    case Obj(members) => MembersWithinAll(members);
    case _ =>
  }

  lemma {:induction false} ItemsWithinAll(items: Items)
    ensures ItemsWithin(items, ALL_DOUBLES)
    decreases items
  {
    if items.Item? {
      WithinAll(items.head);
      ItemsWithinAll(items.tail);
    }
  }

  lemma {:induction false} MembersWithinAll(m: Members)
    ensures MembersWithin(m, ALL_DOUBLES)
    decreases m
  {
    if m.Member? {
      WithinAll(m.value);
      MembersWithinAll(m.rest);
    }
  }

  /** The same for any values, where all numbers are written unambiguously. */
  lemma TextsTellApart(num: Numerals, v: Json, w: Json)
    requires Lawful(num)
    ensures Stringify(num, v) == Stringify(num, w) <==> v == w
  {
    WithinAll(v);
    WithinAll(w);
    StringifyInjective(num, v, w, ALL_DOUBLES);
  }

  // ---------- members ----------

  function Lookup(m: Members, key: Text): Option<Json> {
    match m
    case NoMembers => None
    case Member(k, v, rest) => if k == key then Some(v) else Lookup(rest, key)
  }

  function Keys(m: Members): set<Text> {
    match m
    case NoMembers => {}
    case Member(k, _, rest) => {k} + Keys(rest)
  }

  function JsonSize(v: Json): nat {
    if v.Obj? then 1 + MembersSize(v.members) else 1
  }

  function MembersSize(m: Members): nat {
    match m
    case NoMembers => 0
    case Member(_, v, rest) => 1 + JsonSize(v) + MembersSize(rest)
  }

  lemma {:induction false} LookupKeys(m: Members, key: Text)
    ensures Lookup(m, key).Some? <==> key in Keys(m)
    ensures Lookup(m, key).Some? ==> JsonSize(Lookup(m, key).value) < JsonSize(Obj(m))
  {
    if m.Member? && m.key != key {
      LookupKeys(m.rest, key);
    }
  }

  /** Equal up to the order of object members, except inside arrays. */
  ghost predicate Same(a: Json, b: Json) {
    if a.Obj? && b.Obj? then Keys(a.members) == Keys(b.members) && SameMembers(a.members, b.members)
    else a == b
  }

  ghost predicate SameMembers(l: Members, r: Members) {
    match l
    case NoMembers => true
    case Member(k, v, rest) => Lookup(r, k).Some? && Same(v, Lookup(r, k).value) && SameMembers(rest, r)
  }

  /** No object outside arrays repeats a key or has one that is not allowed. */
  predicate Keyed(v: Json, allowed: Text -> bool) {
    v.Obj? ==> KeyedMembers(v.members, allowed)
  }

  predicate KeyedMembers(m: Members, allowed: Text -> bool) {
    m.Member? ==> m.key !in Keys(m.rest) && allowed(m.key) && Keyed(m.value, allowed) && KeyedMembers(m.rest, allowed)
  }

  ghost predicate SameAt(l: Members, r: Members, key: Text) {
    Lookup(l, key).Some? && Lookup(r, key).Some? && Same(Lookup(l, key).value, Lookup(r, key).value)
  }

  lemma {:induction false} SameMembersMeans(l: Members, r: Members, allowed: Text -> bool)
    requires KeyedMembers(l, allowed)
    ensures SameMembers(l, r) <==> forall k <- Keys(l) :: SameAt(l, r, k)
  {
    if l.Member? {
      SameMembersMeans(l.rest, r, allowed);
      forall k | k in Keys(l.rest) ensures SameAt(l, r, k) <==> SameAt(l.rest, r, k) {
      }
      assert Lookup(l, l.key) == Some(l.value);
      assert SameMembers(l, r) <==> SameAt(l, r, l.key) && SameMembers(l.rest, r);
    }
  }

  lemma {:induction false} KeyedLookup(m: Members, key: Text, allowed: Text -> bool)
    requires KeyedMembers(m, allowed)
    ensures Lookup(m, key).Some? ==> Keyed(Lookup(m, key).value, allowed) && allowed(key)
  {
    if m.Member? {
      KeyedLookup(m.rest, key, allowed);
    }
  }

  lemma {:induction false} SameReflexive(v: Json, allowed: Text -> bool)
    requires Keyed(v, allowed)
    ensures Same(v, v)
    decreases v
  {
    if v.Obj? {
      SameMembersReflexive(v.members, v.members, allowed);
    }
  }

  lemma {:induction false} SameMembersReflexive(l: Members, r: Members, allowed: Text -> bool)
    requires KeyedMembers(l, allowed) && forall k <- Keys(l) :: Lookup(r, k) == Lookup(l, k)
    ensures SameMembers(l, r)
    decreases l
  {
    if l.Member? {
      SameReflexive(l.value, allowed);
      assert Lookup(r, l.key) == Lookup(l, l.key);
      assert forall k <- Keys(l.rest) :: Lookup(l, k) == Lookup(l.rest, k);
      SameMembersReflexive(l.rest, r, allowed);
    }
  }
}
