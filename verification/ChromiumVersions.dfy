/** Chromium's exact four-component versions. */
module ChromiumVersions {
  import opened Decimals
  import opened Results

  const MAX_COMPONENT: nat := 0xffffffff

  datatype Version = Version(major: nat, minor: nat, build: nat, patch: nat)

  function Dotted(n: nat, rest: Text): Text {
    ['.'] + (Numeral(n) + rest)
  }

  function Print(v: Version): Text {
    Numeral(v.major) + Dotted(v.minor, Dotted(v.build, Dotted(v.patch, [])))
  }

  predicate InRange(v: Version) {
    1 <= v.major <= MAX_COMPONENT && v.minor <= MAX_COMPONENT && v.build <= MAX_COMPONENT && v.patch <= MAX_COMPONENT
  }

  /** How many digits a text starts with. */
  function Digits(t: Text): (n: nat)
    ensures n <= |t| && (forall c <- t[..n] :: Digit(c)) && (n < |t| ==> !Digit(t[n]))
  {
    if t == [] || !Digit(t[0]) then 0
    else
      assert t[..1 + Digits(t[1..])] == [t[0]] + t[1..][..Digits(t[1..])];
      1 + Digits(t[1..])
  }

  datatype Cut = Cut(value: nat, rest: Text)

  function ReadComponent(t: Text): Option<Cut> {
    var n := Digits(t);
    if Canonical(t[..n]) then Some(Cut(Value(t[..n]), t[n..])) else None
  }

  /** A component with a dot before it. */
  function ReadNext(t: Text): Option<Cut> {
    if t != [] && t[0] == '.' then ReadComponent(t[1..]) else None
  }

  /** parseChromiumFullVersion */
  function ParseFullVersion(t: Text): Option<Version> {
    match ReadComponent(t)
    case None => None
    case Some(a) =>
      match ReadNext(a.rest)
      case None => None
      case Some(b) =>
        match ReadNext(b.rest)
        case None => None
        case Some(c) =>
          match ReadNext(c.rest)
          case None => None
          case Some(d) =>
            var v := Version(a.value, b.value, c.value, d.value);
            if d.rest == [] && InRange(v) then Some(v) else None
  }

  lemma ComponentRead(n: nat, rest: Text)
    requires rest == [] || !Digit(rest[0])
    ensures ReadComponent(Numeral(n) + rest) == Some(Cut(n, rest))
  {
    NumeralCanonical(n);
    var t, k := Numeral(n) + rest, |Numeral(n)|;
    assert t[..k] == Numeral(n) && t[k..] == rest;
    assert forall i :: 0 <= i < k ==> t[i] == Numeral(n)[i] && Numeral(n)[i] in Numeral(n);
    assert forall i :: 0 <= i < Digits(t) ==> t[i] in t[..Digits(t)];
    assert Digits(t) == k;
  }

  lemma ReadIsComponent(t: Text)
    ensures ReadComponent(t).Some? ==> t == Numeral(ReadComponent(t).value.value) + ReadComponent(t).value.rest
  {
    if ReadComponent(t).Some? {
      CanonicalNumeral(t[..Digits(t)]);
      assert t == t[..Digits(t)] + t[Digits(t)..];
    }
  }

  lemma NextRead(n: nat, rest: Text)
    requires rest == [] || !Digit(rest[0])
    ensures ReadNext(Dotted(n, rest)) == Some(Cut(n, rest)) && !Digit(Dotted(n, rest)[0])
  {
    assert Dotted(n, rest)[1..] == Numeral(n) + rest;
    ComponentRead(n, rest);
  }

  lemma ReadIsNext(t: Text)
    ensures ReadNext(t).Some? ==> t == Dotted(ReadNext(t).value.value, ReadNext(t).value.rest)
  {
    if ReadNext(t).Some? {
      ReadIsComponent(t[1..]);
      assert t == ['.'] + t[1..];
    }
  }

  lemma PrintedParses(v: Version)
    requires InRange(v)
    ensures ParseFullVersion(Print(v)) == Some(v)
  {
    var y := Dotted(v.patch, []);
    var x := Dotted(v.build, y);
    var w := Dotted(v.minor, x);
    NextRead(v.patch, []);
    NextRead(v.build, y);
    NextRead(v.minor, x);
    ComponentRead(v.major, w);
  }

  lemma ParsedIsPrinted(t: Text)
    requires ParseFullVersion(t).Some?
    ensures t == Print(ParseFullVersion(t).value) && InRange(ParseFullVersion(t).value)
  {
    var a := ReadComponent(t).value;
    var b := ReadNext(a.rest).value;
    var c := ReadNext(b.rest).value;
    ReadIsComponent(t);
    ReadIsNext(a.rest);
    ReadIsNext(b.rest);
    ReadIsNext(c.rest);
  }

  /** The versions accepted are exactly the printed ones in range, each with its own reading. */
  lemma FullVersionExactly(t: Text, v: Version)
    ensures ParseFullVersion(t) == Some(v) <==> t == Print(v) && InRange(v)
  {
    if InRange(v) {
      PrintedParses(v);
    }
    if ParseFullVersion(t) == Some(v) {
      ParsedIsPrinted(t);
    }
  }
}
