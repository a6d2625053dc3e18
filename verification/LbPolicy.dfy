/** Display names of load-balancing policies. */
module LbPolicy {
  import opened Prelude
  import opened Strings

  const SUBSET_TYPE_URL := "type.googleapis.com/envoy.extensions.load_balancing_policies.subset.v3.Subset"

  /** A typed config, and what its bytes give as a Subset message: nothing, or the typed
      configs of the inner policies (each may be nil). */
  datatype TypedConfig = TypedConfig(typeUrl: string, asSubset: SubsetBytes)

  datatype SubsetBytes = Undecodable | Policies(inner: seq<Option<TypedConfig>>)

  // ----- lbPolicyShortName -----

  /** unicode.IsUpper and unicode.ToUpper on ASCII. */
  predicate IsUpper(c: char) { 'A' <= c <= 'Z' }

  predicate IsLower(c: char) { 'a' <= c <= 'z' }

  predicate IsAlphanumeric(c: char) { IsUpper(c) || IsLower(c) || '0' <= c <= '9' }

  function ToUpper(c: char): char { if IsLower(c) then c - 'a' + 'A' else c }

  function ToLower(c: char): char { if IsUpper(c) then c - 'A' + 'a' else c }

  /** What follows the last slash, and within it the last dot. */
  function FinalSegment(typeUrl: string): string { AfterLast(AfterLast(typeUrl, '/'), '.') }

  /** Upper case, with an underscore before each capital that does not come first. */
  function SnakeTail(s: string): string {
    if s == [] then []
    else (if IsUpper(s[0]) then ['_', s[0]] else [ToUpper(s[0])]) + SnakeTail(s[1..])
  }

  function Snake(s: string): string {
    if s == [] then [] else [ToUpper(s[0])] + SnakeTail(s[1..])
  }

  function ShortName(typeUrl: string): string { Snake(FinalSegment(typeUrl)) }

  lemma {:induction false} SnakeTailGrows(s: string, n: nat)
    requires n < |s|
    ensures SnakeTail(s[..n + 1]) == SnakeTail(s[..n]) + if IsUpper(s[n]) then ['_', s[n]] else [ToUpper(s[n])]
  {
    if n == 0 {
      assert s[..1][1..] == [];
    } else {
      SnakeTailGrows(s[1..], n - 1);
      assert s[..n + 1][1..] == s[1..][..n] && s[..n][1..] == s[1..][..n - 1];
    }
  }

  lemma SnakeGrows(s: string, n: nat)
    requires n < |s|
    ensures Snake(s[..n + 1]) == Snake(s[..n]) + (if n > 0 && IsUpper(s[n]) then ['_'] else []) + [ToUpper(s[n])]
  {
    if n > 0 {
      SnakeTailGrows(s[1..], n - 1);
      assert s[..n + 1][1..] == s[1..][..n] && s[..n][1..] == s[1..][..n - 1];
    } else {
      assert s[..1][1..] == [];
    }
  }

  method LbPolicyShortName(typeUrl: string) returns (out: string)
    ensures out == ShortName(typeUrl)
  {
    out := BuildSnake(FinalSegment(typeUrl));
  }

  /** The builder loop. */
  method BuildSnake(name: string) returns (out: string)
    ensures out == Snake(name)
  {
    out := "";
    for i := 0 to |name|
      invariant out == Snake(name[..i])
    {
      SnakeGrows(name, i);
      if i > 0 && IsUpper(name[i]) {
        out := out + ['_'];
      }
      out := out + [ToUpper(name[i])];
    }
    assert name[..|name|] == name;
  }

  predicate IsCamelCase(s: string) {
    s != [] && IsUpper(s[0]) && forall i | 0 <= i < |s| :: IsAlphanumeric(s[i])
  }

  function UnsnakeTail(s: string): string
    decreases |s|
  {
    if s == [] then []
    else if s[0] == '_' && |s| > 1 then [s[1]] + UnsnakeTail(s[2..])
    else [ToLower(s[0])] + UnsnakeTail(s[1..])
  }

  /** The decoder: a letter after an underscore is a capital, any other is small. */
  function Unsnake(s: string): string {
    if s == [] then [] else [s[0]] + UnsnakeTail(s[1..])
  }

  lemma {:induction false} TailDecodes(s: string)
    requires forall i | 0 <= i < |s| :: IsAlphanumeric(s[i])
    ensures UnsnakeTail(SnakeTail(s)) == s
  {
    if s != [] {
      TailDecodes(s[1..]);
      var coded := SnakeTail(s);
      if IsUpper(s[0]) {
        assert coded[2..] == SnakeTail(s[1..]);
      } else {
        assert coded[1..] == SnakeTail(s[1..]);
      }
    }
  }

  lemma {:induction false} TailHasNoSmallLetter(s: string)
    ensures forall c | c in SnakeTail(s) :: !('a' <= c <= 'z')
  {
    if s != [] {
      TailHasNoSmallLetter(s[1..]);
    }
  }

  /** A short name has no small letter. */
  lemma ShortNameHasNoSmallLetter(typeUrl: string)
    ensures forall c | c in ShortName(typeUrl) :: !('a' <= c <= 'z')
  {
    var s := FinalSegment(typeUrl);
    if s != [] {
      TailHasNoSmallLetter(s[1..]);
    }
  }

  /** The short name of a CamelCase type determines the type's last component. */
  lemma ShortNameDecodes(typeUrl: string)
    requires IsCamelCase(FinalSegment(typeUrl))
    ensures Unsnake(ShortName(typeUrl)) == FinalSegment(typeUrl)
  {
    var s := FinalSegment(typeUrl);
    TailDecodes(s[1..]);
    assert Snake(s)[1..] == SnakeTail(s[1..]);
  }

  lemma ShortNameInjective(a: string, b: string)
    requires IsCamelCase(FinalSegment(a)) && IsCamelCase(FinalSegment(b)) && ShortName(a) == ShortName(b)
    ensures FinalSegment(a) == FinalSegment(b)
  {
    ShortNameDecodes(a);
    ShortNameDecodes(b);
  }

  lemma WithoutSeparator(s: string, c: char)
    requires c !in s
    ensures AfterLast(s, c) == s
  {
  }

  /** Nothing before the last separator matters, be it a dot or a slash. */
  lemma FinalSegmentOfQualified(prefix: string, s: string)
    requires '/' !in s && '.' !in s
    ensures FinalSegment(prefix + (['.'] + s)) == s
    ensures FinalSegment(prefix + (['/'] + s)) == s
  {
    AfterLastKeepsTail(prefix, ['.'] + s, '/');
    var rest := AfterLast(prefix, '/');
    AfterLastSeparator(rest, '.', s, rest + (['.'] + s));
    SlashSegment(prefix, s);
  }

  lemma SlashSegment(prefix: string, s: string)
    requires '/' !in s && '.' !in s
    ensures FinalSegment(prefix + (['/'] + s)) == s
  {
    AfterLastSeparator(prefix, '/', s, prefix + (['/'] + s));
    WithoutSeparator(s, '.');
  }

  // ----- describeLbPolicy -----

  function Describe(cfg: Option<TypedConfig>, depth: nat): string
    decreases 6 - depth
  {
    if cfg.None? || depth > 5 then ""
    else if cfg.value.typeUrl == SUBSET_TYPE_URL then
      match cfg.value.asSubset
      case Undecodable => "SUBSET"
      case Policies(inner) =>
        if inner == [] then "SUBSET"
        else
          var name := Describe(inner[0], depth + 1);
          if name != "" then name else "SUBSET"
    else ShortName(cfg.value.typeUrl)
  }

  /** A Subset message, by its own type URL, shows its first inner policy, and SUBSET when that
      has no name or its bytes do not decode. */
  lemma SubsetShowsInner(inner: Option<TypedConfig>, rest: seq<Option<TypedConfig>>)
    ensures var url := "type.googleapis.com/envoy.extensions.load_balancing_policies.subset.v3.Subset";
      && Describe(Some(TypedConfig(url, Undecodable)), 0) == "SUBSET"
      && Describe(Some(TypedConfig(url, Policies([]))), 0) == "SUBSET"
      && Describe(Some(TypedConfig(url, Policies([inner] + rest))), 0)
         == if Describe(inner, 1) != "" then Describe(inner, 1) else "SUBSET"
  {
  }

  /** What lies below all decodable subset wrappers. */
  datatype Core = Nothing | Garbled | Leaf(typeUrl: string)

  function CoreOf(cfg: Option<TypedConfig>): Core {
    if cfg.None? then Nothing
    else if cfg.value.typeUrl != SUBSET_TYPE_URL then Leaf(cfg.value.typeUrl)
    else match cfg.value.asSubset
      case Undecodable => Garbled
      case Policies(inner) => if inner == [] then Nothing else CoreOf(inner[0])
  }

  /** How many decodable subset wrappers there are. */
  function Wrappers(cfg: Option<TypedConfig>): nat {
    if cfg.None? || cfg.value.typeUrl != SUBSET_TYPE_URL || cfg.value.asSubset.Undecodable? then 0
    else
      var inner := cfg.value.asSubset.inner;
      if inner == [] then 1 else 1 + Wrappers(inner[0])
  }

  /** The name shown for a nesting of `wrappers` around `core`, when `room` more may be opened. */
  function Shown(core: Core, wrappers: nat, room: int): string {
    if core.Leaf? && ShortName(core.typeUrl) != "" && wrappers <= room then ShortName(core.typeUrl)
    else if wrappers == 0 && !core.Garbled? then ""
    else "SUBSET"
  }

  lemma {:induction false} DescribeAtDepth(cfg: Option<TypedConfig>, depth: nat)
    requires depth <= 5
    ensures Describe(cfg, depth) == Shown(CoreOf(cfg), Wrappers(cfg), 5 - depth)
    decreases 6 - depth
  {
    if cfg.Some? && cfg.value.typeUrl == SUBSET_TYPE_URL && cfg.value.asSubset.Policies? {
      var inner := cfg.value.asSubset.inner;
      if inner != [] && depth < 5 {
        DescribeAtDepth(inner[0], depth + 1);
      }
    }
  }

  /** The leaf's name shows through exactly when it has one and at most five wrappers enclose it;
      otherwise a wrapped policy is SUBSET and an unwrapped one has no name. */
  lemma DescribeExactly(cfg: Option<TypedConfig>)
    ensures Describe(cfg, 0) == Shown(CoreOf(cfg), Wrappers(cfg), 5)
  {
    DescribeAtDepth(cfg, 0);
  }

  /** The policy column: the first extensible policy's name, else the legacy enum. */
  function FormatLbPolicy(policies: seq<Option<TypedConfig>>, legacy: string): string {
    if policies != [] && Describe(policies[0], 0) != "" then Describe(policies[0], 0) else legacy
  }

  /** The legacy enum shows through only for a missing first policy or an unwrapped one whose
      type URL ends in a separator. */
  lemma LegacyShownWhen(policies: seq<Option<TypedConfig>>, legacy: string)
    ensures FormatLbPolicy(policies, legacy) ==
      if policies == [] || policies[0].None?
         || (policies[0].value.typeUrl != SUBSET_TYPE_URL && FinalSegment(policies[0].value.typeUrl) == "")
      then legacy
      else Shown(CoreOf(policies[0]), Wrappers(policies[0]), 5)
  {
    if policies != [] {
      DescribeExactly(policies[0]);
    }
  }
}
