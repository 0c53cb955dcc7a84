/** The cursor-based reader itself, proved to compute the functions of StructuredFields. A
    thrown parse error is the result None. */
module FieldReader {
  import opened Results
  import opened StructuredFields

  class StructuredFieldReader {
    const text: Text
    var offset: nat

    predicate Valid()
      reads this
    {
      offset <= |text|
    }

    /** What the cursor has not passed yet. */
    ghost function Left(): Text
      requires Valid()
      reads this
    {
      text[offset..]
    }

    constructor (text: Text)
      ensures Valid() && this.text == text && Left() == text
    {
      this.text, offset := text, 0;
    }

    method Whitespace()
      requires Valid()
      modifies this
      ensures Valid() && Left() == SkipBlank(old(Left())) && offset >= old(offset)
    {
      while offset < |text| && (text[offset] == ' ' || text[offset] == '\t')
        invariant Valid() && offset >= old(offset) && SkipBlank(Left()) == SkipBlank(old(Left()))
      {
        offset := offset + 1;
      }
    }

    method Consume(c: char) returns (found: bool)
      requires Valid()
      modifies this
      ensures Valid() && (found <==> old(Left()) != [] && old(Left())[0] == c)
      ensures Left() == if found then old(Left())[1..] else old(Left())
      ensures offset == if found then old(offset) + 1 else old(offset)
    {
      found := offset < |text| && text[offset] == c;
      if found {
        offset := offset + 1;
      }
    }

    method String() returns (r: Option<Text>)
      requires Valid()
      modifies this
      ensures Valid() && (r.Some? ==> offset > old(offset))
      ensures match ReadString(old(Left())) case None => r.None? case Some(c) => r == Some(c.value) && Left() == c.rest
    {
      var quoted := Consume('"');
      if !quoted {
        return None;
      }
      ghost var body := Left();
      var result: Text := [];
      BodyStart(body);
      while offset < |text|
        invariant Valid() && offset > old(offset)
        invariant BodySoFar(body, result, Left())
      {
        ghost var left := Left();
        var c := text[offset];
        offset := offset + 1;
        assert Left() == left[1..] && c == left[0];
        if c == '"' {
          assert result + [] == result;
          return Some(result);
        }
        if c == '\\' {
          if offset == |text| || (text[offset] != '"' && text[offset] != '\\') {
            return None;
          }
          BodyStep(body, result, left, [text[offset]], left[2..]);
          result := result + [text[offset]];
          offset := offset + 1;
          assert Left() == left[2..];
        } else {
          if !Printable(c) {
            return None;
          }
          BodyStep(body, result, left, [c], left[1..]);
          result := result + [c];
        }
      }
      return None;
    }

    method BrandMember() returns (r: Option<Brand>)
      requires Valid()
      modifies this
      ensures Valid() && (r.Some? ==> offset > old(offset))
      ensures match ReadBrand(old(Left())) case None => r.None? case Some(c) => r == Some(c.value) && Left() == c.rest
    {
      var brand := String();
      if brand.None? || brand.value == [] {
        return None;
      }
      var found := Consume(';');
      if !found {
        return None;
      }
      ghost var gap := Left();
      var more := true;
      while more
        invariant Valid() && offset > old(offset)
        invariant SkipSpaces(Left()) == SkipSpaces(gap)
        invariant !more ==> Left() == SkipSpaces(gap)
        decreases more, |text| - offset
      {
        more := Consume(' ');
      }
      found := Consume('v');
      if found {
        found := Consume('=');
      }
      if !found {
        return None;
      }
      var version := String();
      if version.None? || version.value == [] {
        return None;
      }
      r := Some(Brand(brand.value, version.value));
    }

    method Item(brands: bool) returns (r: Option<Value>)
      requires Valid()
      modifies this
      ensures Valid() && (r.Some? ==> offset > old(offset))
      ensures match ReadMember(brands, old(Left())) case None => r.None? case Some(c) => r == Some(c.value) && Left() == c.rest
    {
      if brands {
        var b := BrandMember();
        r := if b.Some? then Some(BrandValue(b.value)) else None;
      } else {
        var s := String();
        r := if s.Some? then Some(StringValue(s.value)) else None;
      }
    }

    /** end() */
    method AtEnd() returns (ok: bool)
      requires Valid()
      modifies this
      ensures Valid() && (ok <==> SkipBlank(old(Left())) == [])
    {
      Whitespace();
      ok := offset == |text|;
    }

    /** list(): every turn of the loop moves the cursor past one member. */
    method List(brands: bool) returns (r: Option<seq<Value>>)
      requires Valid() && |text| <= MAX_TEXT
      modifies this
      ensures Valid()
      ensures r == if SkipBlank(old(Left())) == [] then None else ReadMembers(brands, SkipBlank(old(Left())), MAX_MEMBERS)
    {
      Whitespace();
      if offset == |text| {
        return None;
      }
      ghost var from := Left();
      var result: seq<Value> := [];
      RemainingStart(brands, from);
      var more := true;
      while more
        invariant Valid() && |result| <= MAX_MEMBERS
        invariant more ==> Remaining(brands, from, result, Left())
        invariant !more ==> ReadMembers(brands, from, MAX_MEMBERS) == (if Left() == [] then Some(result) else None)
        invariant !more ==> SkipBlank(Left()) == Left()
        decreases more, |text| - offset
      {
        if |result| == MAX_MEMBERS {
          return None;
        }
        ghost var left, before := Left(), result;
        var item := Item(brands);
        if item.None? {
          return None;
        }
        result := result + [item.value];
        ghost var after := Left();
        Whitespace();
        SkipTwice(after);
        more := Consume(',');
        if more {
          Whitespace();
        }
        RemainingStep(brands, from, before, left);
      }
      var ended := AtEnd();
      r := if ended then Some(result) else None;
    }
  }

  /** What the whole string reads as, given the characters read so far and the text left. */
  ghost predicate BodySoFar(body: Text, result: Text, left: Text) {
    match ReadBody(left)
    case None => ReadBody(body).None?
    case Some(c) => ReadBody(body) == Some(Cut(result + c.value, c.rest))
  }

  lemma BodyStart(body: Text)
    ensures BodySoFar(body, [], body)
  {
    if ReadBody(body).Some? {
      assert [] + ReadBody(body).value.value == ReadBody(body).value.value;
    }
  }

  lemma BodyStep(body: Text, result: Text, left: Text, taken: Text, left': Text)
    requires BodySoFar(body, result, left)
    requires match ReadBody(left')
             case None => ReadBody(left).None?
             case Some(c) => ReadBody(left) == Some(Cut(taken + c.value, c.rest))
    ensures BodySoFar(body, result + taken, left')
  {
    if ReadBody(left').Some? {
      var c := ReadBody(left').value;
      assert result + (taken + c.value) == (result + taken) + c.value;
    }
  }

  lemma RemainingStart(brands: bool, from: Text)
    ensures Remaining(brands, from, [], from)
  {
    var r := ReadMembers(brands, from, MAX_MEMBERS);
    if r.Some? {
      assert [] + r.value == r.value;
    }
  }

  /** What the whole list reads as, given the members read so far and the text left. */
  ghost predicate Remaining(brands: bool, from: Text, result: seq<Value>, left: Text)
    requires |result| <= MAX_MEMBERS
  {
    Joined(ReadMembers(brands, from, MAX_MEMBERS), result, ReadMembers(brands, left, MAX_MEMBERS - |result|))
  }

  /** The whole is what has been read and then what is left, if that can be read. */
  predicate Joined(whole: Option<seq<Value>>, read: seq<Value>, left: Option<seq<Value>>) {
    whole == match left case None => None case Some(vs) => Some(read + vs)
  }

  lemma JoinedMore(whole: Option<seq<Value>>, read: seq<Value>, left: Option<seq<Value>>, v: Value, more: Option<seq<Value>>)
    requires Joined(whole, read, left) && Joined(left, [v], more)
    ensures Joined(whole, read + [v], more)
  {
    if more.Some? {
      assert read + ([v] + more.value) == (read + [v]) + more.value;
    }
  }

  lemma RemainingStep(brands: bool, from: Text, result: seq<Value>, left: Text)
    requires |result| < MAX_MEMBERS && Remaining(brands, from, result, left) && ReadMember(brands, left).Some?
    ensures var c := ReadMember(brands, left).value;
            var rest := SkipBlank(c.rest);
            && (rest == [] ==> ReadMembers(brands, from, MAX_MEMBERS) == Some(result + [c.value]))
            && (rest != [] && rest[0] != ',' ==> ReadMembers(brands, from, MAX_MEMBERS) == None)
            && (rest != [] && rest[0] == ',' ==> Remaining(brands, from, result + [c.value], SkipBlank(rest[1..])))
  {
    var c := ReadMember(brands, left).value;
    var rest := SkipBlank(c.rest);
    var whole, here := ReadMembers(brands, from, MAX_MEMBERS), ReadMembers(brands, left, MAX_MEMBERS - |result|);
    MembersUnfold(brands, left, MAX_MEMBERS - |result|);
    if rest == [] {
      assert Joined(whole, result, Some([c.value]));
    } else if rest[0] != ',' {
      assert Joined(whole, result, None);
    } else {
      var more := ReadMembers(brands, SkipBlank(rest[1..]), MAX_MEMBERS - |result| - 1);
      JoinedMore(whole, result, here, c.value, more);
      assert Joined(whole, result + [c.value], more);
    }
  }

  lemma MembersUnfold(brands: bool, s: Text, budget: nat)
    requires budget > 0 && ReadMember(brands, s).Some?
    ensures var c := ReadMember(brands, s).value;
            var rest := SkipBlank(c.rest);
            && (rest == [] ==> ReadMembers(brands, s, budget) == Some([c.value]))
            && (rest != [] && rest[0] != ',' ==> ReadMembers(brands, s, budget) == None)
            && (rest != [] && rest[0] == ',' ==>
                  Joined(ReadMembers(brands, s, budget), [c.value], ReadMembers(brands, SkipBlank(rest[1..]), budget - 1)))
  {
  }

  lemma {:induction false} SkipTwice(s: Text)
    ensures SkipBlank(SkipBlank(s)) == SkipBlank(s)
  {
    if s != [] && (s[0] == ' ' || s[0] == '\t') {
      SkipTwice(s[1..]);
    }
  }

  /** parseClientHintBrands, or for brands == false parseClientHintFormFactors */
  method ParseHintList(text: Text, brands: bool) returns (r: Option<seq<Value>>)
    ensures r == ParseList(brands, text)
  {
    if |text| > MAX_TEXT {
      return None;
    }
    var reader := new StructuredFieldReader(text);
    r := reader.List(brands);
  }

  /** parseClientHintString */
  method ParseHintString(text: Text) returns (r: Option<Text>)
    ensures r == ParseString(text)
  {
    if |text| > MAX_TEXT {
      return None;
    }
    var reader := new StructuredFieldReader(text);
    reader.Whitespace();
    r := reader.String();
    if r.Some? {
      var ended := reader.AtEnd();
      if !ended {
        r := None;
      }
    }
  }
}
