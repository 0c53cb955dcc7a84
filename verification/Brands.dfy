/** Brand lists without Chromium's GREASE members, in the order of their names. */
module Brands {
  import opened Results
  import opened Ordering
  import opened JsonText
  import S = StructuredFields

  type Brand = S.Brand

  predicate GreaseSeparator(c: char) {
    c in " ():./;=?_-"
  }

  /** isChromiumGreaseBrand */
  predicate IsGrease(b: Brand) {
    && |b.brand| == 11 && b.brand[..3] == "Not" && GreaseSeparator(b.brand[3]) && b.brand[4] == 'A'
    && GreaseSeparator(b.brand[5]) && b.brand[6..] == "Brand"
    && b.version in ["8", "24", "99", "8.0.0.0", "24.0.0.0", "99.0.0.0"]
  }

  /** A list of records with two texts of the wanted kind. */
  function ReadBrands(items: Items, ok: Json -> bool): Option<seq<Brand>> {
    match items
    case NoItems => Some([])
    case Item(head, tail) =>
      match ReadBrands(tail, ok)
      case None => None
      case Some(rest) => if head.Obj? && IsBrand(head.members, ok) then Some([AsBrand(head.members, ok)] + rest) else None
  }

  predicate IsBrand(m: Members, ok: Json -> bool) {
    var brand, version := Lookup(m, "brand"), Lookup(m, "version");
    brand.Some? && brand.value.Str? && ok(brand.value) && version.Some? && version.value.Str? && ok(version.value)
  }

  function AsBrand(m: Members, ok: Json -> bool): Brand
    requires IsBrand(m, ok)
  {
    S.Brand(Lookup(m, "brand").value.s, Lookup(m, "version").value.s)
  }

  function NameKey(b: Brand): Key {
    Codes(b.brand)
  }

  function Genuine(s: seq<Brand>): (r: seq<Brand>)
    ensures forall b :: b in r <==> b in s && !IsGrease(b)
  {
    if s == [] then []
    else
      assert forall b :: b in s <==> b == s[0] || b in s[1..];
      (if IsGrease(s[0]) then [] else [s[0]]) + Genuine(s[1..])
  }

  /** The real brands of a list, by name. */
  function RealBrands(s: seq<Brand>): seq<Brand> {
    SortBy(NameKey, Genuine(s))
  }

  predicate DistinctNames(s: seq<Brand>) {
    forall i, j :: 0 <= i < j < |s| ==> s[i].brand != s[j].brand
  }

  lemma {:induction false} GenuineDistinct(s: seq<Brand>)
    requires DistinctNames(s)
    ensures DistinctBy(NameKey, Genuine(s))
  {
    if s != [] {
      GenuineDistinct(s[1..]);
      var rest := Genuine(s[1..]);
      forall j | 0 <= j < |rest| ensures NameKey(s[0]) != NameKey(rest[j]) {
        assert rest[j] in s[1..];
        CodesInjective(s[0].brand, rest[j].brand);
      }
    }
  }

  /** Lists that name no brand twice come to the same exactly if they hold the same real brands
      and versions: order and GREASE members do not matter, nothing else is lost. */
  lemma RealBrandsExactly(a: seq<Brand>, b: seq<Brand>)
    requires DistinctNames(a) && DistinctNames(b)
    ensures RealBrands(a) == RealBrands(b) <==> forall x: Brand :: !IsGrease(x) ==> (x in a <==> x in b)
  {
    GenuineDistinct(a);
    GenuineDistinct(b);
    SortExactly(NameKey, Genuine(a), Genuine(b));
  }
}
