/**
  Unique SKUs and slugs: a normalised base, or the base with the least free counter
  appended, and the SKUs of a product's variants.
*/
module UniqueNames {
  import opened Wrappers
  import opened Decimals
  import opened Normalizers

  type Id = nat
  type Tenant = nat

  /** One row of the product or category table; soft-deleted rows are kept and still count. */
  datatype Record = Record(tenant: Tenant, name: string)

  /** What `findFirst({ tenantId, name, id: { not: excludeId } })` can find. */
  function Taken(rows: map<Id, Record>, tenant: Tenant, excludeId: Option<Id>): set<string> {
    set id <- rows | rows[id].tenant == tenant && Some(id) != excludeId :: rows[id].name
  }

  // ----- The candidates -------------------------------------------------------------------

  function Candidate(base: string, k: nat): string {
    if k == 0 then base else base + "-" + ToString(k)
  }

  lemma CandidatesDiffer(base: string, j: nat, k: nat)
    requires Candidate(base, j) == Candidate(base, k)
    ensures j == k
  {
    var s := Candidate(base, j);
    if j > 0 { assert s[|base| + 1..] == ToString(j); }
    if k > 0 { assert s[|base| + 1..] == ToString(k); }
    if j > 0 && k > 0 { ToStringIsInjective(j, k); }
  }

  ghost predicate IsFirstFree(taken: set<string>, base: string, k: nat) {
    Candidate(base, k) !in taken && forall j: nat | j < k :: Candidate(base, j) in taken
  }

  /** Pigeonhole: k different candidates cannot all be among fewer than k taken names. */
  lemma {:induction false} FailedProbesAreBounded(taken: set<string>, base: string, k: nat)
    requires forall j: nat | j < k :: Candidate(base, j) in taken
    ensures k <= |taken|
    decreases k
  {
    if k > 0 {
      var last := Candidate(base, k - 1);
      forall j: nat | j < k - 1 ensures Candidate(base, j) in taken - {last} {
        if Candidate(base, j) == last { CandidatesDiffer(base, j, k - 1); }
      }
      FailedProbesAreBounded(taken - {last}, base, k - 1);
    }
  }

  lemma {:induction false} FirstFreeFrom(taken: set<string>, base: string, from: nat) returns (k: nat)
    requires forall j: nat | j < from :: Candidate(base, j) in taken
    ensures IsFirstFree(taken, base, k)
    decreases |taken| - from
  {
    FailedProbesAreBounded(taken, base, from);
    if Candidate(base, from) in taken {
      FailedProbesAreBounded(taken, base, from + 1);
      k := FirstFreeFrom(taken, base, from + 1);
    } else {
      k := from;
    }
  }

  /** The index of the name the search settles on: at most |taken| probes fail before it. */
  ghost function FirstFree(taken: set<string>, base: string): (k: nat)
    ensures IsFirstFree(taken, base, k) && k <= |taken|
  {
    assert exists k: nat :: IsFirstFree(taken, base, k) by { var k := FirstFreeFrom(taken, base, 0); }
    var k: nat :| IsFirstFree(taken, base, k);
    FailedProbesAreBounded(taken, base, k);
    k
  }

  ghost function Unique(taken: set<string>, base: string): string {
    Candidate(base, FirstFree(taken, base))
  }

  /** The counter loop of both services. */
  method EnsureUnique(taken: set<string>, base: string) returns (unique: string)
    ensures unique == Unique(taken, base) && unique !in taken
    ensures exists k: nat :: k <= |taken| && IsFirstFree(taken, base, k) && unique == Candidate(base, k)
  {
    unique := base;
    var counter := 1;
    while unique in taken
      invariant counter >= 1 && unique == Candidate(base, counter - 1)
      invariant forall j: nat | j < counter - 1 :: Candidate(base, j) in taken
      decreases |taken| + 1 - counter
    {
      FailedProbesAreBounded(taken, base, counter);
      unique := base + "-" + ToString(counter);
      counter := counter + 1;
    }
    FailedProbesAreBounded(taken, base, counter - 1);
    var first := FirstFree(taken, base);
    assert IsFirstFree(taken, base, counter - 1);
    assert !(first < counter - 1) && !(counter - 1 < first);
  }

  // ----- Normal form of the result ---------------------------------------------------------

  /** A base with a suffix is normal exactly when the base is and is not empty. */
  lemma SuffixedIsNormal(base: string, k: nat, other: char -> bool)
    requires forall c | IsDigit(c) :: !other(c)
    ensures NormalForm(Candidate(base, k), other) <==> NormalForm(base, other) && (base != [] || k == 0)
  {
    if k > 0 {
      DigitsAreNormal(k, other);
      HyphenNormalIff(base, ToString(k), other);
      assert Candidate(base, k) == base + ("-" + ToString(k));
    }
  }

  lemma DigitsAreNormal(k: nat, other: char -> bool)
    requires forall c | IsDigit(c) :: !other(c)
    ensures ToString(k) != [] && NormalForm(ToString(k), other)
  {
    assert forall c | IsDigit(c) :: Word(c);
  }

  // ----- The services ----------------------------------------------------------------------

  method CreateSku(rows: map<Id, Record>, tenant: Tenant, toUpperCase: string -> string, baseSku: string,
                   excludeId: Option<Id>)
    returns (sku: string)
    requires CaseMap(toUpperCase, Lower)
    ensures sku == Unique(Taken(rows, tenant, excludeId), SanitizeSku(toUpperCase, baseSku))
    ensures forall id <- rows | rows[id].tenant == tenant && Some(id) != excludeId :: rows[id].name != sku
    ensures NormalForm(sku, Lower)
       <==> (SanitizeSku(toUpperCase, baseSku) == [] ==> [] !in Taken(rows, tenant, excludeId))
  {
    var sanitized := SanitizeSku(toUpperCase, baseSku);
    var taken := Taken(rows, tenant, excludeId);
    sku := EnsureUnique(taken, sanitized);
    SkuIsNormal(toUpperCase, baseSku);
    SuffixedIsNormal(sanitized, FirstFree(taken, sanitized), Lower);
    assert forall id <- rows | rows[id].tenant == tenant && Some(id) != excludeId :: rows[id].name in taken;
    assert FirstFree(taken, sanitized) > 0 ==> Candidate(sanitized, 0) in taken;
  }

  datatype SlugError = NoNameGiven

  /** An empty `slug` or `name` counts as absent; a given slug is normalised like a name. */
  method CreateSlug(rows: map<Id, Record>, tenant: Tenant, toLowerCase: string -> string,
                    slug: Option<string>, name: Option<string>, excludeId: Option<Id>)
    returns (result: Result<string, SlugError>)
    requires CaseMap(toLowerCase, Upper)
    ensures result.Err? <==> slug in {None, Some([])} && name in {None, Some([])}
    ensures result.Ok? ==>
      var base := GenerateSlug(toLowerCase, if slug in {None, Some([])} then name.value else slug.value);
      && result.value == Unique(Taken(rows, tenant, excludeId), base)
      && (NormalForm(result.value, Upper) <==> (base == [] ==> [] !in Taken(rows, tenant, excludeId)))
    ensures result.Ok? ==>
      forall id <- rows | rows[id].tenant == tenant && Some(id) != excludeId :: rows[id].name != result.value
  {
    var hasSlug := slug.Some? && slug.value != [];
    if !hasSlug && (name.None? || name.value == []) {
      return Err(NoNameGiven);
    }
    var text := if hasSlug then slug.value else name.value;
    var base := GenerateSlug(toLowerCase, text);
    var taken := Taken(rows, tenant, excludeId);
    var unique := EnsureUnique(taken, base);
    SlugIsNormal(toLowerCase, text);
    SuffixedIsNormal(base, FirstFree(taken, base), Upper);
    assert forall id <- rows | rows[id].tenant == tenant && Some(id) != excludeId :: rows[id].name in taken;
    assert FirstFree(taken, base) > 0 ==> Candidate(base, 0) in taken;
    return Ok(unique);
  }

  /** A record being updated keeps its own normal name: its row does not count against it. */
  lemma OwnNameIsKept(rows: map<Id, Record>, id: Id)
    requires id in rows
    requires forall other <- rows | other != id && rows[other].tenant == rows[id].tenant ::
        rows[other].name != rows[id].name
    ensures Unique(Taken(rows, rows[id].tenant, Some(id)), rows[id].name) == rows[id].name
  {
    var taken := Taken(rows, rows[id].tenant, Some(id));
    assert Candidate(rows[id].name, 0) !in taken;
    assert !(0 < FirstFree(taken, rows[id].name));
  }

  // ----- Variants --------------------------------------------------------------------------

  datatype Attribute = Attribute(key: string, values: seq<string>)

  datatype Variant = Variant(sku: Option<string>, attributes: seq<Attribute>)

  /** `(a.values[0] || '').substring(0, 3)`: all of an attribute that reaches the SKU. */
  function CodeSource(a: Attribute): string {
    var first := if a.values == [] then [] else a.values[0];
    if |first| <= 3 then first else first[..3]
  }

  function AttributeCode(toUpperCase: string -> string, a: Attribute): string {
    SanitizeSku(toUpperCase, CodeSource(a))
  }

  function AttributeCodes(toUpperCase: string -> string, attributes: seq<Attribute>): seq<string> {
    if attributes == [] then []
    else [AttributeCode(toUpperCase, attributes[0])] + AttributeCodes(toUpperCase, attributes[1..])
  }

  function VariantSuffix(toUpperCase: string -> string, attributes: seq<Attribute>, index: nat): string {
    if attributes == [] then "V" + ToString(index + 1) else Join(AttributeCodes(toUpperCase, attributes))
  }

  predicate Provided(v: Variant) { v.sku.Some? && v.sku.value != [] }

  function VariantBase(toUpperCase: string -> string, parentSku: string, v: Variant, index: nat): string {
    if Provided(v) then SanitizeSku(toUpperCase, v.sku.value)
    else parentSku + "-" + VariantSuffix(toUpperCase, v.attributes, index)
  }

  /** The suffix is in normal form exactly when each attribute leaves a code. */
  lemma VariantSuffixIsNormalIff(toUpperCase: string -> string, attributes: seq<Attribute>, index: nat)
    requires CaseMap(toUpperCase, Lower)
    ensures var suffix := VariantSuffix(toUpperCase, attributes, index);
            suffix != [] && NormalForm(suffix, Lower)
            <==> forall i | 0 <= i < |attributes| :: AttributeCode(toUpperCase, attributes[i]) != []
  {
    if attributes == [] {
      DigitsAreNormal(index + 1, Lower);
    } else {
      CodesInOrder(toUpperCase, attributes);
      JoinIsNormalIff(AttributeCodes(toUpperCase, attributes), Lower);
      forall i | 0 <= i < |attributes| ensures NormalForm(AttributeCode(toUpperCase, attributes[i]), Lower) {
        SkuIsNormal(toUpperCase, CodeSource(attributes[i]));
      }
    }
  }

  lemma {:induction false} CodesInOrder(toUpperCase: string -> string, attributes: seq<Attribute>)
    ensures |AttributeCodes(toUpperCase, attributes)| == |attributes|
    ensures forall i | 0 <= i < |attributes| ::
              AttributeCodes(toUpperCase, attributes)[i] == AttributeCode(toUpperCase, attributes[i])
  {
    if attributes != [] { CodesInOrder(toUpperCase, attributes[1..]); }
  }

  /** An attribute whose first three characters hold a word character leaves a code. */
  predicate LeavesCode(toUpperCase: string -> string, a: Attribute) {
    var text := toUpperCase(CodeSource(a));
    exists i | 0 <= i < |text| :: Word(text[i])
  }

  /**
    A generated variant SKU, never sanitised as a whole, is in normal form exactly when the
    parent's is, and not empty, and every attribute leaves a code.
  */
  lemma GeneratedSkuIsNormalIff(taken: set<string>, toUpperCase: string -> string, parentSku: string, v: Variant,
                                index: nat)
    requires CaseMap(toUpperCase, Lower) && !Provided(v)
    ensures NormalForm(Unique(taken, VariantBase(toUpperCase, parentSku, v, index)), Lower)
       <==> && parentSku != [] && NormalForm(parentSku, Lower)
            && forall i | 0 <= i < |v.attributes| :: LeavesCode(toUpperCase, v.attributes[i])
  {
    CodesLeftIff(toUpperCase, v.attributes);
    GeneratedBaseIsNormalIff(toUpperCase, parentSku, v.attributes, index);
    UniqueIsNormalIff(taken, parentSku + "-" + VariantSuffix(toUpperCase, v.attributes, index));
  }

  /** An input: a variant whose only attribute value is a hyphen. */
  lemma HyphenValueLeavesNoCode(taken: set<string>, toUpperCase: string -> string, parentSku: string, key: string,
                                index: nat)
    requires CaseMap(toUpperCase, Lower)
    ensures var v := Variant(None, [Attribute(key, ["-"])]);
            !NormalForm(Unique(taken, VariantBase(toUpperCase, parentSku, v, index)), Lower)
  {
    var a := Attribute(key, ["-"]);
    assert CodeSource(a) == "-" && Plain("-", Lower) && toUpperCase("-") == "-";
    assert !LeavesCode(toUpperCase, a);
    assert [a][0] == a;
    GeneratedSkuIsNormalIff(taken, toUpperCase, parentSku, Variant(None, [a]), index);
  }

  lemma CodesLeftIff(toUpperCase: string -> string, attributes: seq<Attribute>)
    ensures (forall i | 0 <= i < |attributes| :: AttributeCode(toUpperCase, attributes[i]) != [])
       <==> forall i | 0 <= i < |attributes| :: LeavesCode(toUpperCase, attributes[i])
  {
    forall i | 0 <= i < |attributes|
      ensures AttributeCode(toUpperCase, attributes[i]) != [] <==> LeavesCode(toUpperCase, attributes[i])
    {
      SkuIsEmptyIff(toUpperCase, CodeSource(attributes[i]));
    }
  }

  lemma GeneratedBaseIsNormalIff(toUpperCase: string -> string, parentSku: string, attributes: seq<Attribute>,
                                 index: nat)
    requires CaseMap(toUpperCase, Lower)
    ensures NormalForm(parentSku + "-" + VariantSuffix(toUpperCase, attributes, index), Lower)
       <==> && parentSku != [] && NormalForm(parentSku, Lower)
            && forall i | 0 <= i < |attributes| :: AttributeCode(toUpperCase, attributes[i]) != []
  {
    var suffix := VariantSuffix(toUpperCase, attributes, index);
    HyphenNormalIff(parentSku, suffix, Lower);
    assert parentSku + "-" + suffix == parentSku + ("-" + suffix);
    VariantSuffixIsNormalIff(toUpperCase, attributes, index);
  }

  lemma UniqueIsNormalIff(taken: set<string>, base: string)
    requires base != []
    ensures NormalForm(Unique(taken, base), Lower) <==> NormalForm(base, Lower)
  {
    SuffixedIsNormal(base, FirstFree(taken, base), Lower);
  }

  /** A given SKU is normalised; otherwise one is built from the parent and the attributes. */
  method VariantSku(rows: map<Id, Record>, tenant: Tenant, toUpperCase: string -> string,
                    parentSku: string, v: Variant, index: nat)
    returns (sku: string)
    requires CaseMap(toUpperCase, Lower)
    ensures sku == Unique(Taken(rows, tenant, None), VariantBase(toUpperCase, parentSku, v, index))
  {
    if v.sku.Some? && v.sku.value != [] {
      sku := CreateSku(rows, tenant, toUpperCase, v.sku.value, None);
    } else {
      var suffix := VariantSuffix(toUpperCase, v.attributes, index);
      sku := EnsureUnique(Taken(rows, tenant, None), parentSku + "-" + suffix);
    }
  }

  /** One SKU for each variant, from the variant and its position. */
  ghost function VariantSkus(taken: set<string>, toUpperCase: string -> string, parentSku: string,
                             variants: seq<Variant>)
    : (skus: seq<string>)
    ensures |skus| == |variants|
    ensures forall i | 0 <= i < |variants| ::
        skus[i] == Unique(taken, VariantBase(toUpperCase, parentSku, variants[i], i))
  {
    seq(|variants|, i requires 0 <= i < |variants| =>
        Unique(taken, VariantBase(toUpperCase, parentSku, variants[i], i)))
  }

  /**
    The loop of `createWithExplicitVariants`: every variant's SKU is checked against the
    table alone and written back into the variant.
  */
  method AssignVariantSkus(rows: map<Id, Record>, tenant: Tenant, toUpperCase: string -> string,
                           parentSku: string, variants: array<Variant>)
    returns (variantSkus: seq<string>)
    requires CaseMap(toUpperCase, Lower)
    modifies variants
    ensures variantSkus == VariantSkus(Taken(rows, tenant, None), toUpperCase, parentSku, old(variants[..]))
    ensures forall i | 0 <= i < variants.Length :: variants[i] == old(variants[i]).(sku := Some(variantSkus[i]))
  {
    variantSkus := [];
    ghost var given := variants[..];
    ghost var skus := VariantSkus(Taken(rows, tenant, None), toUpperCase, parentSku, given);
    for i := 0 to variants.Length
      invariant variantSkus == skus[..i]
      invariant forall j | i <= j < variants.Length :: variants[j] == given[j]
      invariant forall j | 0 <= j < i :: variants[j] == given[j].(sku := Some(skus[j]))
    {
      var variantSku := VariantSku(rows, tenant, toUpperCase, parentSku, variants[i], i);
      variantSkus := variantSkus + [variantSku];
      variants[i] := variants[i].(sku := Some(variantSku));
    }
  }

  lemma {:induction false} LeadingDigitsStop(d: string, tail: string)
    requires AllDigits(d) && (tail == [] || !IsDigit(tail[0]))
    ensures LeadingDigits(d + tail) == d
  {
    if d != [] {
      assert (d + tail)[1..] == d[1..] + tail;
      LeadingDigitsStop(d[1..], tail);
    } else {
      assert d + tail == tail;
    }
  }

  predicate Bare(v: Variant) { !Provided(v) && v.attributes == [] }

  lemma BareVariantText(parentSku: string, index: nat, k: nat)
    ensures var s := Candidate(parentSku + "-V" + ToString(index + 1), k);
            |s| > |parentSku| + 2 && LeadingDigits(s[|parentSku| + 2..]) == ToString(index + 1)
  {
    var digits := ToString(index + 1);
    var tail := if k == 0 then [] else "-" + ToString(k);
    var s := Candidate(parentSku + "-V" + digits, k);
    assert s == parentSku + "-V" + (digits + tail);
    assert s[|parentSku| + 2..] == digits + tail;
    LeadingDigitsStop(digits, tail);
  }

  /**
    Variants given neither a SKU nor attributes get different SKUs, different from the
    parent's and from every stored one, although none is checked against its siblings.
  */
  lemma BareVariantsAreDistinct(taken: set<string>, toUpperCase: string -> string, parentSku: string,
                                variants: seq<Variant>, i: nat, j: nat)
    requires i < |variants| && j < |variants| && i != j
    requires Bare(variants[i]) && Bare(variants[j])
    ensures var skus := VariantSkus(taken, toUpperCase, parentSku, variants);
            skus[i] != skus[j] && skus[i] !in taken + {parentSku}
  {
    BareSkusDiffer(taken, toUpperCase, parentSku, variants[i], i, variants[j], j);
  }

  lemma BareSkusDiffer(taken: set<string>, toUpperCase: string -> string, parentSku: string, v: Variant, i: nat,
                       w: Variant, j: nat)
    requires Bare(v) && Bare(w) && i != j
    ensures var a, b := VariantBase(toUpperCase, parentSku, v, i), VariantBase(toUpperCase, parentSku, w, j);
            Unique(taken, a) != Unique(taken, b) && Unique(taken, a) !in taken + {parentSku}
  {
    var a, b := parentSku + "-V" + ToString(i + 1), parentSku + "-V" + ToString(j + 1);
    assert VariantBase(toUpperCase, parentSku, v, i) == a && VariantBase(toUpperCase, parentSku, w, j) == b;
    BareVariantText(parentSku, i, FirstFree(taken, a));
    BareVariantText(parentSku, j, FirstFree(taken, b));
    if ToString(i + 1) == ToString(j + 1) { ToStringIsInjective(i + 1, j + 1); }
  }

  // ----- When two names coincide -----------------------------------------------------------

  lemma SuffixIsDetermined(a: string, m: nat, b: string, n: nat)
    requires a + "-" + ToString(m) == b + "-" + ToString(n)
    ensures a == b
  {
    var s, t := a + "-" + ToString(m), b + "-" + ToString(n);
    assert s[|a|] == '-' && t[|b|] == '-';
    assert forall i | |a| < i < |s| :: s[i] == ToString(m)[i - |a| - 1] && IsDigit(s[i]);
    assert forall i | |b| < i < |t| :: t[i] == ToString(n)[i - |b| - 1] && IsDigit(t[i]);
    assert s[..|a|] == a && t[..|b|] == b;
  }

  /** `other` is free, and the search from `base` finds everything before it taken. */
  ghost predicate RunsInto(taken: set<string>, base: string, other: string) {
    exists k: nat :: IsFirstFree(taken, base, k) && Candidate(base, k) == other
  }

  /** One base, or one of the bases is itself the first free candidate of the other. */
  ghost predicate Clash(taken: set<string>, a: string, b: string) {
    a == b || RunsInto(taken, a, b) || RunsInto(taken, b, a)
  }

  lemma FirstFreeIsUnique(taken: set<string>, base: string, k: nat)
    requires IsFirstFree(taken, base, k)
    ensures FirstFree(taken, base) == k
  {
    var first := FirstFree(taken, base);
    assert !(first < k) && !(k < first);
  }

  lemma RunningIntoGivesBoth(taken: set<string>, a: string, b: string)
    requires RunsInto(taken, a, b)
    ensures Unique(taken, a) == b == Unique(taken, b)
  {
    var k: nat :| IsFirstFree(taken, a, k) && Candidate(a, k) == b;
    FirstFreeIsUnique(taken, a, k);
    FirstFreeIsUnique(taken, b, 0);
  }

  /** Two searches against the same table answer one name exactly when their bases clash. */
  lemma SameNameIffClash(taken: set<string>, a: string, b: string)
    ensures Unique(taken, a) == Unique(taken, b) <==> Clash(taken, a, b)
  {
    var j, k := FirstFree(taken, a), FirstFree(taken, b);
    if Candidate(a, j) == Candidate(b, k) {
      if j == 0 {
        assert RunsInto(taken, b, a);
      } else if k == 0 {
        assert RunsInto(taken, a, b);
      } else {
        SuffixIsDetermined(a, j, b, k);
      }
    }
    if RunsInto(taken, a, b) { RunningIntoGivesBoth(taken, a, b); }
    if RunsInto(taken, b, a) { RunningIntoGivesBoth(taken, b, a); }
  }

  /**
    Exactly when two variants of one product receive the very same SKU: each is checked
    against the table, none against its siblings.
  */
  lemma VariantsShareASkuIffClash(taken: set<string>, toUpperCase: string -> string, parentSku: string,
                                  variants: seq<Variant>, i: nat, j: nat)
    requires i < |variants| && j < |variants|
    ensures var skus := VariantSkus(taken, toUpperCase, parentSku, variants);
            skus[i] == skus[j]
            <==> Clash(taken, VariantBase(toUpperCase, parentSku, variants[i], i),
                       VariantBase(toUpperCase, parentSku, variants[j], j))
  {
    SameNameIffClash(taken, VariantBase(toUpperCase, parentSku, variants[i], i),
                     VariantBase(toUpperCase, parentSku, variants[j], j));
  }

  /** A variant takes the parent's still unstored SKU exactly when it is given one that leads there. */
  lemma VariantTakesParentSkuIffGiven(taken: set<string>, toUpperCase: string -> string, parentSku: string,
                                      variants: seq<Variant>, i: nat)
    requires i < |variants|
    ensures VariantSkus(taken, toUpperCase, parentSku, variants)[i] == parentSku
       <==> Provided(variants[i]) && RunsInto(taken, SanitizeSku(toUpperCase, variants[i].sku.value), parentSku)
  {
    var base := VariantBase(toUpperCase, parentSku, variants[i], i);
    if RunsInto(taken, base, parentSku) { RunningIntoGivesBoth(taken, base, parentSku); }
    assert !Provided(variants[i]) ==> |Candidate(base, FirstFree(taken, base))| > |parentSku|;
  }

  /** Two variants whose attribute values start with the same three characters always clash. */
  lemma SameStartsClash(taken: set<string>, toUpperCase: string -> string, parentSku: string,
                        v: Variant, i: nat, w: Variant, j: nat)
    requires !Provided(v) && !Provided(w) && |v.attributes| == |w.attributes| > 0
    requires forall a | 0 <= a < |v.attributes| :: CodeSource(v.attributes[a]) == CodeSource(w.attributes[a])
    ensures Clash(taken, VariantBase(toUpperCase, parentSku, v, i), VariantBase(toUpperCase, parentSku, w, j))
  {
    SameCodes(toUpperCase, v.attributes, w.attributes);
  }

  lemma {:induction false} SameCodes(toUpperCase: string -> string, a: seq<Attribute>, b: seq<Attribute>)
    requires |a| == |b| && forall i | 0 <= i < |a| :: CodeSource(a[i]) == CodeSource(b[i])
    ensures AttributeCodes(toUpperCase, a) == AttributeCodes(toUpperCase, b)
  {
    if a != [] { SameCodes(toUpperCase, a[1..], b[1..]); }
  }

  /** One such input: "Red" and "Redwood" are told apart nowhere. */
  lemma RedAndRedwoodShareASku(taken: set<string>, toUpperCase: string -> string, parentSku: string)
    ensures var skus := VariantSkus(taken, toUpperCase, parentSku,
              [Variant(None, [Attribute("Colour", ["Red"])]), Variant(None, [Attribute("Colour", ["Redwood"])])]);
            skus[0] == skus[1]
  {
    var v, w := Variant(None, [Attribute("Colour", ["Red"])]), Variant(None, [Attribute("Colour", ["Redwood"])]);
    assert CodeSource(w.attributes[0]) == "Red";
    SameStartsClash(taken, toUpperCase, parentSku, v, 0, w, 1);
    VariantsShareASkuIffClash(taken, toUpperCase, parentSku, [v, w], 0, 1);
  }

  lemma TakenNameRunsIntoItsSuffix(taken: set<string>, name: string)
    requires taken == {name}
    ensures RunsInto(taken, name, Candidate(name, 1))
  {
    assert |Candidate(name, 1)| > |name|;
    assert IsFirstFree(taken, name, 1);
  }

  /** Another: a taken name and its own first suffix, given as the SKUs of two variants. */
  lemma GivenSkusCollide(taken: set<string>, toUpperCase: string -> string, parentSku: string, name: string,
                         v: Variant, w: Variant)
    requires CaseMap(toUpperCase, Lower) && NormalForm(name, Lower) && name != []
    requires taken == {name} && v.sku == Some(name) && w.sku == Some(Candidate(name, 1))
    ensures var skus := VariantSkus(taken, toUpperCase, parentSku, [v, w]);
            skus[0] == skus[1]
  {
    SuffixedIsNormal(name, 1, Lower);
    SkuNormalFormsAreFixedPoints(toUpperCase, name);
    SkuNormalFormsAreFixedPoints(toUpperCase, Candidate(name, 1));
    TakenNameRunsIntoItsSuffix(taken, name);
    VariantsShareASkuIffClash(taken, toUpperCase, parentSku, [v, w], 0, 1);
  }
}
