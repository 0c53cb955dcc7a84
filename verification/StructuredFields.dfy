/** The Structured Field reader for client hints (sections 3.1, 3.3.3 and 4.2 of RFC 8941),
    its grammar written as a printer with free layout, and the reader proved against it. */
module StructuredFields {
  import opened Results

  type Text = seq<char>

  const MAX_TEXT: nat := 16384
  const MAX_MEMBERS: nat := 32

  datatype Brand = Brand(brand: Text, version: Text)

  // ---------- the grammar ----------

  predicate Printable(c: char) {
    ' ' <= c <= '~'
  }

  predicate PrintableText(s: Text) {
    forall c <- s :: Printable(c)
  }

  /** The one spelling of a string, before the text rest. */
  function PutString(s: Text, rest: Text): Text {
    ['"'] + PutBody(s, rest)
  }

  function PutBody(s: Text, rest: Text): Text {
    if s == [] then ['"'] + rest
    else if s[0] == '"' || s[0] == '\\' then ['\\', s[0]] + PutBody(s[1..], rest)
    else [s[0]] + PutBody(s[1..], rest)
  }

  predicate IsBlank(s: Text) {
    forall c <- s :: c == ' ' || c == '\t'
  }

  predicate IsSpaces(s: Text) {
    forall c <- s :: c == ' '
  }

  /** One list member: a bare string, or a brand with spaces before its version parameter. */
  datatype Member = Bare(text: Text) | Versioned(brand: Brand, gap: Text)

  predicate ValidMember(m: Member) {
    match m
    case Bare(text) => PrintableText(text)
    case Versioned(b, gap) =>
      PrintableText(b.brand) && PrintableText(b.version) && b.brand != [] && b.version != [] && IsSpaces(gap)
  }

  function PutMember(m: Member, rest: Text): Text {
    match m
    case Bare(text) => PutString(text, rest)
    case Versioned(b, gap) => PutString(b.brand, [';'] + (gap + (['v', '='] + PutString(b.version, rest))))
  }

  /** A member and the blanks before and after it. */
  datatype Slot = Slot(before: Text, member: Member, after: Text)

  predicate ValidSlot(s: Slot) {
    IsBlank(s.before) && ValidMember(s.member) && IsBlank(s.after)
  }

  /** The members, separated by commas. */
  function PrintList(slots: seq<Slot>): Text
    decreases |slots|, 1
  {
    if slots == [] then [] else slots[0].before + PrintFrom(slots)
  }

  /** The same without the first blanks. */
  function PrintFrom(slots: seq<Slot>): Text
    requires slots != []
    decreases |slots|, 0
  {
    PutMember(slots[0].member, slots[0].after + if |slots| == 1 then [] else [','] + PrintList(slots[1..]))
  }

  // ---------- reading, as functions of the text left ----------

  /** A value and the text after it. */
  datatype Cut<+T> = Cut(value: T, rest: Text)

  function SkipBlank(s: Text): (r: Text)
    ensures |r| <= |s|
  {
    if s != [] && (s[0] == ' ' || s[0] == '\t') then SkipBlank(s[1..]) else s
  }

  function SkipSpaces(s: Text): (r: Text)
    ensures |r| <= |s|
  {
    if s != [] && s[0] == ' ' then SkipSpaces(s[1..]) else s
  }

  /** After the opening quote. */
  function ReadBody(s: Text): (r: Option<Cut<Text>>)
    ensures r.Some? ==> |r.value.rest| < |s|
  {
    if s == [] then None
    else if s[0] == '"' then Some(Cut([], s[1..]))
    else if s[0] == '\\' then
      if |s| < 2 || (s[1] != '"' && s[1] != '\\') then None
      else
        match ReadBody(s[2..])
        case None => None
        case Some(c) => Some(Cut([s[1]] + c.value, c.rest))
    else if !Printable(s[0]) then None
    else
      match ReadBody(s[1..])
      case None => None
      case Some(c) => Some(Cut([s[0]] + c.value, c.rest))
  }

  function ReadString(s: Text): (r: Option<Cut<Text>>)
    ensures r.Some? ==> |r.value.rest| < |s|
  {
    if s != [] && s[0] == '"' then ReadBody(s[1..]) else None
  }

  function ReadBrand(s: Text): (r: Option<Cut<Brand>>)
    ensures r.Some? ==> |r.value.rest| < |s|
  {
    match ReadString(s)
    case None => None
    case Some(name) =>
      if name.value == [] || name.rest == [] || name.rest[0] != ';' then None
      else
        var after := SkipSpaces(name.rest[1..]);
        if |after| < 2 || after[0] != 'v' || after[1] != '=' then None
        else
          match ReadString(after[2..])
          case None => None
          case Some(version) => if version.value == [] then None else Some(Cut(Brand(name.value, version.value), version.rest))
  }

  /** What a member is read as. */
  datatype Value = StringValue(text: Text) | BrandValue(brand: Brand)

  function ValueOf(m: Member): Value {
    match m
    case Bare(text) => StringValue(text)
    case Versioned(b, _) => BrandValue(b)
  }

  function ReadMember(brands: bool, s: Text): (r: Option<Cut<Value>>)
    ensures r.Some? ==> |r.value.rest| < |s|
  {
    if brands then
      match ReadBrand(s)
      case None => None
      case Some(c) => Some(Cut(BrandValue(c.value), c.rest))
    else
      match ReadString(s)
      case None => None
      case Some(c) => Some(Cut(StringValue(c.value), c.rest))
  }

  /** The members from the start of one on, at most budget of them, up to the end of the text. */
  function ReadMembers(brands: bool, s: Text, budget: nat): Option<seq<Value>>
    decreases |s|
  {
    if budget == 0 then None
    else
      match ReadMember(brands, s)
      case None => None
      case Some(c) =>
        var rest := SkipBlank(c.rest);
        if rest == [] then Some([c.value])
        else if rest[0] != ',' then None
        else
          match ReadMembers(brands, SkipBlank(rest[1..]), budget - 1)
          case None => None
          case Some(vs) => Some([c.value] + vs)
  }

  /** parseClientHintBrands and parseClientHintFormFactors */
  function ParseList(brands: bool, text: Text): Option<seq<Value>> {
    if |text| > MAX_TEXT || SkipBlank(text) == [] then None
    else ReadMembers(brands, SkipBlank(text), MAX_MEMBERS)
  }

  /** parseClientHintString */
  function ParseString(text: Text): Option<Text> {
    if |text| > MAX_TEXT then None
    else
      match ReadString(SkipBlank(text))
      case None => None
      case Some(c) => if SkipBlank(c.rest) == [] then Some(c.value) else None
  }

  // ---------- reading inverts printing ----------

  lemma {:induction false} BodyRead(s: Text, rest: Text)
    requires PrintableText(s)
    ensures ReadBody(PutBody(s, rest)) == Some(Cut(s, rest))
  {
    var t := PutBody(s, rest);
    if s == [] {
      assert t[1..] == rest;
    } else {
      assert s[0] in s && forall c <- s[1..] :: c in s;
      BodyRead(s[1..], rest);
      assert s == [s[0]] + s[1..];
      var u := PutBody(s[1..], rest);
      assert if s[0] == '"' || s[0] == '\\' then t[2..] == u else t[1..] == u;
    }
  }

  lemma StringRead(s: Text, rest: Text)
    requires PrintableText(s)
    ensures ReadString(PutString(s, rest)) == Some(Cut(s, rest))
  {
    BodyRead(s, rest);
    assert PutString(s, rest)[1..] == PutBody(s, rest);
  }

  lemma {:induction false} BodyPrinted(t: Text)
    requires ReadBody(t).Some?
    ensures var c := ReadBody(t).value; PrintableText(c.value) && t == PutBody(c.value, c.rest)
  {
    var c := ReadBody(t).value;
    if t[0] == '"' {
    } else if t[0] == '\\' {
      BodyPrinted(t[2..]);
      assert c.value[1..] == ReadBody(t[2..]).value.value;
      assert t == [t[0], t[1]] + t[2..];
    } else {
      BodyPrinted(t[1..]);
      assert c.value[1..] == ReadBody(t[1..]).value.value;
      assert t == [t[0]] + t[1..];
    }
  }

  lemma StringPrinted(t: Text)
    requires ReadString(t).Some?
    ensures var c := ReadString(t).value; PrintableText(c.value) && t == PutString(c.value, c.rest)
  {
    BodyPrinted(t[1..]);
  }

  predicate StartsBlank(s: Text) {
    s != [] && (s[0] == ' ' || s[0] == '\t')
  }

  lemma {:induction false} BlankSkipped(b: Text, s: Text)
    requires IsBlank(b) && !StartsBlank(s)
    ensures SkipBlank(b + s) == s
  {
    if b == [] {
      assert b + s == s;
    } else {
      assert b[0] in b && forall c <- b[1..] :: c in b;
      BlankSkipped(b[1..], s);
      assert (b + s)[1..] == b[1..] + s;
    }
  }

  lemma {:induction false} BlankFound(s: Text) returns (b: Text)
    ensures IsBlank(b) && s == b + SkipBlank(s) && !StartsBlank(SkipBlank(s))
  {
    if StartsBlank(s) {
      var c := BlankFound(s[1..]);
      b := [s[0]] + c;
      assert SkipBlank(s) == SkipBlank(s[1..]);
      assert s == [s[0]] + (c + SkipBlank(s)) == b + SkipBlank(s);
    } else {
      b := [];
    }
  }

  lemma {:induction false} SpacesSkipped(b: Text, s: Text)
    requires IsSpaces(b) && (s == [] || s[0] != ' ')
    ensures SkipSpaces(b + s) == s
  {
    if b == [] {
      assert b + s == s;
    } else {
      assert b[0] in b && forall c <- b[1..] :: c in b;
      SpacesSkipped(b[1..], s);
      assert (b + s)[1..] == b[1..] + s;
    }
  }

  lemma {:induction false} SpacesFound(s: Text) returns (b: Text)
    ensures IsSpaces(b) && s == b + SkipSpaces(s)
  {
    if s != [] && s[0] == ' ' {
      var c := SpacesFound(s[1..]);
      b := [s[0]] + c;
      assert SkipSpaces(s) == SkipSpaces(s[1..]);
      assert s == [s[0]] + (c + SkipSpaces(s)) == b + SkipSpaces(s);
    } else {
      b := [];
    }
  }

  predicate OfKind(brands: bool, m: Member) {
    brands <==> m.Versioned?
  }

  lemma MemberRead(brands: bool, m: Member, rest: Text)
    requires ValidMember(m) && OfKind(brands, m)
    ensures ReadMember(brands, PutMember(m, rest)) == Some(Cut(ValueOf(m), rest))
    ensures PutMember(m, rest) != [] && PutMember(m, rest)[0] == '"'
  {
    match m
    case Bare(text) => StringRead(text, rest);
    case Versioned(b, gap) =>
      var last := PutString(b.version, rest);
      var after := ['v', '='] + last;
      var middle := [';'] + (gap + after);
      StringRead(b.brand, middle);
      assert middle[1..] == gap + after;
      SpacesSkipped(gap, after);
      assert after[2..] == last;
      StringRead(b.version, rest);
  }

  lemma MemberPrinted(brands: bool, t: Text) returns (m: Member)
    requires ReadMember(brands, t).Some?
    ensures var c := ReadMember(brands, t).value;
            ValidMember(m) && OfKind(brands, m) && c.value == ValueOf(m) && t == PutMember(m, c.rest)
  {
    StringPrinted(t);
    if brands {
      var gap := BrandPrinted(t);
      m := Versioned(ReadBrand(t).value.value, gap);
    } else {
      m := Bare(ReadString(t).value.value);
    }
  }

  lemma BrandPrinted(t: Text) returns (gap: Text)
    requires ReadBrand(t).Some?
    ensures var c := ReadBrand(t).value;
            ValidMember(Versioned(c.value, gap)) && t == PutMember(Versioned(c.value, gap), c.rest)
  {
    StringPrinted(t);
    var name := ReadString(t).value;
    var next := name.rest[1..];
    assert name.rest == [';'] + next;
    gap := SpacesFound(next);
    var after := SkipSpaces(next);
    VersionPrinted(after);
  }

  lemma VersionPrinted(after: Text)
    requires |after| >= 2 && after[0] == 'v' && after[1] == '=' && ReadString(after[2..]).Some?
    ensures var version := ReadString(after[2..]).value;
            PrintableText(version.value) && after == ['v', '='] + PutString(version.value, version.rest)
  {
    StringPrinted(after[2..]);
    assert after == ['v', '='] + after[2..];
  }

  function Values(slots: seq<Slot>): seq<Value> {
    if slots == [] then [] else [ValueOf(slots[0].member)] + Values(slots[1..])
  }

  ghost predicate ValidSlots(brands: bool, slots: seq<Slot>) {
    slots != [] && forall s <- slots :: ValidSlot(s) && OfKind(brands, s.member)
  }

  lemma ReadMembersLast(brands: bool, s: Text, c: Cut<Value>, budget: nat)
    requires budget > 0 && ReadMember(brands, s) == Some(c) && SkipBlank(c.rest) == []
    ensures ReadMembers(brands, s, budget) == Some([c.value])
  {
  }

  lemma ReadMembersMore(brands: bool, s: Text, c: Cut<Value>, next: Text, budget: nat)
    requires budget > 0 && ReadMember(brands, s) == Some(c) && SkipBlank(c.rest) == [','] + next
    requires ReadMembers(brands, SkipBlank(next), budget - 1).Some?
    ensures ReadMembers(brands, s, budget) == Some([c.value] + ReadMembers(brands, SkipBlank(next), budget - 1).value)
  {
    assert SkipBlank(c.rest)[1..] == next;
  }

  lemma LastMemberRead(brands: bool, s: Slot, budget: nat)
    requires ValidSlot(s) && OfKind(brands, s.member) && budget > 0
    ensures ReadMembers(brands, PrintFrom([s]), budget) == Some(Values([s]))
    ensures PrintFrom([s]) != [] && PrintFrom([s])[0] == '"'
  {
    OneSlot(s);
    MemberRead(brands, s.member, s.after + []);
    BlankSkipped(s.after, []);
    ReadMembersLast(brands, PrintFrom([s]), Cut(ValueOf(s.member), s.after + []), budget);
  }

  /** A member before blanks, a comma and a list that is read. */
  lemma NextMemberRead(brands: bool, s: Slot, before: Text, more: Text, values: seq<Value>, budget: nat)
    requires ValidSlot(s) && OfKind(brands, s.member) && IsBlank(before) && budget > 0
    requires more != [] && more[0] == '"' && ReadMembers(brands, more, budget - 1) == Some(values)
    ensures var t := PutMember(s.member, s.after + ([','] + (before + more)));
            ReadMembers(brands, t, budget) == Some([ValueOf(s.member)] + values) && t != [] && t[0] == '"'
  {
    var next := before + more;
    MemberRead(brands, s.member, s.after + ([','] + next));
    BlankSkipped(s.after, [','] + next);
    BlankSkipped(before, more);
    ReadMembersMore(brands, PutMember(s.member, s.after + ([','] + next)), Cut(ValueOf(s.member), s.after + ([','] + next)), next, budget);
  }

  lemma {:induction false} MembersRead(brands: bool, slots: seq<Slot>, budget: nat)
    requires ValidSlots(brands, slots) && |slots| <= budget
    ensures ReadMembers(brands, PrintFrom(slots), budget) == Some(Values(slots))
    ensures PrintFrom(slots) != [] && PrintFrom(slots)[0] == '"'
  {
    var first, rest := slots[0], slots[1..];
    assert first in slots;
    if |slots| == 1 {
      LastMemberRead(brands, first, budget);
      assert slots == [first];
    } else {
      assert rest[0] in slots && forall s <- rest :: s in slots;
      MembersRead(brands, rest, budget - 1);
      NextMemberRead(brands, first, rest[0].before, PrintFrom(rest), Values(rest), budget);
    }
  }

  /** Every list of 1 to 32 members, in any layout the grammar allows, is read as its values. */
  lemma ListRead(brands: bool, slots: seq<Slot>)
    requires ValidSlots(brands, slots) && |slots| <= MAX_MEMBERS && |PrintList(slots)| <= MAX_TEXT
    ensures ParseList(brands, PrintList(slots)) == Some(Values(slots))
  {
    assert slots[0] in slots;
    MembersRead(brands, slots, MAX_MEMBERS);
    BlankSkipped(slots[0].before, PrintFrom(slots));
  }

  /** A member put before a list. */
  lemma SlotsPrepend(brands: bool, first: Slot, before: Text, more: seq<Slot>)
    requires ValidSlot(first) && OfKind(brands, first.member) && ValidSlots(brands, more) && IsBlank(before)
    ensures var slots := [first] + Shift(before, more);
            ValidSlots(brands, slots)
            && PrintFrom(slots) == PutMember(first.member, first.after + ([','] + (before + PrintFrom(more))))
            && Values(slots) == [ValueOf(first.member)] + Values(more)
  {
    var shifted := Shift(before, more);
    var slots := [first] + shifted;
    Shifted(brands, before, more);
    assert slots[1..] == shifted;
    forall s <- slots ensures ValidSlot(s) && OfKind(brands, s.member) {
      assert s == first || s in shifted;
    }
  }

  /** The text of a member, blanks, a comma, blanks and a list that is printed. */
  lemma NextMemberPrinted(brands: bool, t: Text, first: Slot, before: Text, more: seq<Slot>, budget: nat)
    requires ValidSlot(first) && OfKind(brands, first.member) && first.before == [] && IsBlank(before)
    requires ValidSlots(brands, more) && |more| < budget && ReadMembers(brands, PrintFrom(more), budget - 1) == Some(Values(more))
    requires ReadMember(brands, t) == Some(Cut(ValueOf(first.member), first.after + ([','] + (before + PrintFrom(more)))))
    requires t == PutMember(first.member, first.after + ([','] + (before + PrintFrom(more))))
    ensures var slots := [first] + Shift(before, more);
            ValidSlots(brands, slots) && t == PrintFrom(slots) && ReadMembers(brands, t, budget) == Some(Values(slots))
  {
    var next := before + PrintFrom(more);
    SlotsPrepend(brands, first, before, more);
    assert more[0] in more;
    StartsQuoted(more);
    BlankSkipped(first.after, [','] + next);
    BlankSkipped(before, PrintFrom(more));
    ReadMembersMore(brands, t, Cut(ValueOf(first.member), first.after + ([','] + next)), next, budget);
  }

  lemma StartsQuoted(slots: seq<Slot>)
    requires slots != []
    ensures PrintFrom(slots) != [] && PrintFrom(slots)[0] == '"'
  {
  }

  lemma LastMemberPrinted(brands: bool, t: Text, last: Slot, budget: nat)
    requires ValidSlot(last) && OfKind(brands, last.member) && budget > 0
    requires ReadMember(brands, t) == Some(Cut(ValueOf(last.member), last.after)) && t == PutMember(last.member, last.after)
    ensures ValidSlots(brands, [last]) && t == PrintFrom([last]) && ReadMembers(brands, t, budget) == Some(Values([last]))
  {
    OneSlot(last);
    BlankSkipped(last.after, []);
    ReadMembersLast(brands, t, Cut(ValueOf(last.member), last.after), budget);
  }

  /** The first member of a text, the blanks after it and what comes then. */
  lemma FirstPrinted(brands: bool, t: Text) returns (first: Slot, rest: Text)
    requires ReadMember(brands, t).Some?
    ensures ValidSlot(first) && OfKind(brands, first.member) && first.before == [] && rest == SkipBlank(ReadMember(brands, t).value.rest)
    ensures ReadMember(brands, t) == Some(Cut(ValueOf(first.member), first.after + rest)) && t == PutMember(first.member, first.after + rest)
  {
    var m := MemberPrinted(brands, t);
    var c := ReadMember(brands, t).value;
    var after := BlankFound(c.rest);
    first, rest := Slot([], m, after), SkipBlank(c.rest);
  }

  lemma {:induction false} MembersPrinted(brands: bool, t: Text, budget: nat) returns (slots: seq<Slot>)
    requires ReadMembers(brands, t, budget).Some?
    ensures ValidSlots(brands, slots) && |slots| <= budget && slots[0].before == []
    ensures t == PrintFrom(slots) && ReadMembers(brands, t, budget) == Some(Values(slots))
    decreases |t|
  {
    var first, rest := FirstPrinted(brands, t);
    if rest == [] {
      assert first.after + rest == first.after;
      LastMemberPrinted(brands, t, first, budget);
      slots := [first];
    } else {
      var next := rest[1..];
      assert rest == [','] + next;
      var before := BlankFound(next);
      var more := MembersPrinted(brands, SkipBlank(next), budget - 1);
      assert next == before + PrintFrom(more);
      NextMemberPrinted(brands, t, first, before, more, budget);
      slots := [first] + Shift(before, more);
    }
  }

  lemma OneSlot(s: Slot)
    ensures PrintFrom([s]) == PutMember(s.member, s.after + []) && s.after + [] == s.after
    ensures Values([s]) == [ValueOf(s.member)]
  {
  }

  /** The same members with other blanks in front. */
  function Shift(before: Text, slots: seq<Slot>): (r: seq<Slot>)
    requires slots != []
    ensures |r| == |slots|
  {
    [slots[0].(before := before)] + slots[1..]
  }

  lemma Shifted(brands: bool, before: Text, slots: seq<Slot>)
    requires ValidSlots(brands, slots) && IsBlank(before)
    ensures ValidSlots(brands, Shift(before, slots)) && Values(Shift(before, slots)) == Values(slots)
    ensures PrintList(Shift(before, slots)) == before + PrintFrom(slots)
  {
    var r := Shift(before, slots);
    assert r[1..] == slots[1..];
    assert slots[0] in slots;
    forall s <- r ensures ValidSlot(s) && OfKind(brands, s.member) {
      assert s == r[0] || s in slots[1..];
      assert s in slots[1..] ==> s in slots;
    }
  }

  /** The accepted texts are exactly the printed lists of 1 to 32 members: nothing may follow
      the last member but blanks, so no suffix, trailing comma or further parameter passes. */
  lemma ListLanguage(brands: bool, text: Text, values: seq<Value>)
    ensures ParseList(brands, text) == Some(values) <==>
              |text| <= MAX_TEXT
              && exists slots :: ValidSlots(brands, slots) && |slots| <= MAX_MEMBERS && text == PrintList(slots) && values == Values(slots)
  {
    if ParseList(brands, text) == Some(values) {
      var before := BlankFound(text);
      var slots := MembersPrinted(brands, SkipBlank(text), MAX_MEMBERS);
      Shifted(brands, before, slots);
      assert text == PrintList(Shift(before, slots));
    }
    if slots :| |text| <= MAX_TEXT && ValidSlots(brands, slots) && |slots| <= MAX_MEMBERS && text == PrintList(slots) && values == Values(slots) {
      ListRead(brands, slots);
    }
  }

  /** A single string, likewise. */
  lemma StringLanguage(text: Text, value: Text)
    ensures ParseString(text) == Some(value) <==>
              |text| <= MAX_TEXT && PrintableText(value)
              && exists before, after :: IsBlank(before) && IsBlank(after) && text == before + PutString(value, after)
  {
    if ParseString(text) == Some(value) {
      var before := BlankFound(text);
      StringPrinted(SkipBlank(text));
      var after := BlankFound(ReadString(SkipBlank(text)).value.rest);
      assert after == ReadString(SkipBlank(text)).value.rest;
      assert text == before + PutString(value, after);
    }
    if before, after :| |text| <= MAX_TEXT && PrintableText(value) && IsBlank(before) && IsBlank(after) && text == before + PutString(value, after) {
      BlankSkipped(before, PutString(value, after));
      StringRead(value, after);
      BlankSkipped(after, []);
      assert after + [] == after;
    }
  }
}
