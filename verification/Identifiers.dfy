/** Folding source names to PostgreSQL identifiers, refusing whatever could merge two objects. */
module Identifiers {
  import opened Wrappers
  import opened Sequences

  const MAX_IDENTIFIER_BYTES := 63

  datatype IdentifierError = Unusable(raw: string) | Collision(first: string, second: string) | NotInSet(raw: string)

  /** What `str.strip` removes. */
  predicate IsSpace(c: char) {
    || '\t' <= c <= '\r'
    || '\U{1C}' <= c <= ' '
    || c in {'\U{85}', '\U{A0}', '\U{1680}', '\U{2028}', '\U{2029}', '\U{202F}', '\U{205F}', '\U{3000}'}
    || '\U{2000}' <= c <= '\U{200A}'
  }

  function StripLeft(s: string): string {
    if s != "" && IsSpace(s[0]) then StripLeft(s[1..]) else s
  }

  function StripRight(s: string): string {
    if s != "" && IsSpace(s[|s| - 1]) then StripRight(s[..|s| - 1]) else s
  }

  function Strip(s: string): string {
    StripRight(StripLeft(s))
  }

  /**
   `str.lower` on one character. The Kelvin sign is the one non-ASCII character that
   becomes ASCII; what the others become is never ASCII and so never matters here.
   */
  function LowerChar(c: char): char {
    if 'A' <= c <= 'Z' then c + 32 as char
    else if c == '\U{212A}' then 'k'
    else c
  }

  function Lower(s: string): string {
    Map(LowerChar, s)
  }

  function Folded(raw: string): string {
    Lower(Strip(raw))
  }

  predicate Allowed(c: char) {
    ' ' <= c <= '~' && c != '"' && c != '\\'
  }

  /** Not empty, at most 63 bytes, and nothing but printable ASCII without quotes or backslashes. */
  predicate Usable(raw: string) {
    1 <= |Folded(raw)| <= MAX_IDENTIFIER_BYTES && forall i :: 0 <= i < |Folded(raw)| ==> Allowed(Folded(raw)[i])
  }

  /** The bytes of a string's UTF-8 encoding, as far as ASCII goes. */
  function AsciiBytes(s: string): nat
    requires forall i :: 0 <= i < |s| ==> Allowed(s[i])
  {
    |s|
  }

  method ToPgIdentifier(raw: string) returns (r: Result<string, IdentifierError>)
    ensures r == if Usable(raw) then Ok(Folded(raw)) else Err(Unusable(raw))
  {
    var stripped := Strip(raw);
    if stripped == "" { return Err(Unusable(raw)); }
    var folded := Lower(stripped);
    for i := 0 to |folded|
      invariant forall k :: 0 <= k < i ==> Allowed(folded[k])
    {
      if !Allowed(folded[i]) { return Err(Unusable(raw)); }
    }
    if AsciiBytes(folded) > MAX_IDENTIFIER_BYTES { return Err(Unusable(raw)); }
    return Ok(folded);
  }

  ghost predicate NoCollision(raws: seq<string>) {
    forall i, j :: 0 <= i < |raws| && 0 <= j < |raws| && Folded(raws[i]) == Folded(raws[j]) ==> raws[i] == raws[j]
  }

  ghost predicate Buildable(raws: seq<string>) {
    (forall raw :: raw in raws ==> Usable(raw)) && NoCollision(raws)
  }

  /** Source names to identifiers. */
  function Forward(raws: seq<string>): map<string, string> {
    map raw | raw in raws :: Folded(raw)
  }

  /** Succeeds exactly when every name is usable and no two different names fold together. */
  method Build(raws: seq<string>) returns (r: Result<map<string, string>, IdentifierError>)
    ensures r.Ok? <==> Buildable(raws)
    ensures r.Ok? ==> r.value == Forward(raws)
    ensures r.Err? && r.error.Collision? ==>
              && ComesBefore(raws, r.error.first, r.error.second)
              && r.error.first != r.error.second && Folded(r.error.first) == Folded(r.error.second)
    ensures r.Err? && !r.error.Collision? ==> exists raw :: raw in raws && !Usable(raw) && r.error == Unusable(raw)
  {
    EmptyIsBuildable();
    hide Folded, Usable, NoCollision, Forward, Indexes, Buildable;
    var forward: map<string, string>, seen: map<string, string> := map[], map[];
    for i := 0 to |raws|
      invariant Buildable(raws[..i]) && forward == Forward(raws[..i]) && Indexes(seen, raws[..i])
    {
      var raw := raws[i];
      assert raws[..i + 1] == raws[..i] + [raw];
      var safe := ToPgIdentifier(raw);
      if safe.Err? {
        UnusableIsNotBuildable(raws, raw);
        return Err(safe.error);
      }
      if safe.value in seen && seen[safe.value] != raw {
        IndexedName(seen, raws[..i], safe.value);
        NotBuildable(raws, seen[safe.value], raw);
        EarlierComesBefore(raws, i, seen[safe.value]);
        return Err(Collision(seen[safe.value], raw));
      }
      BuildableNext(raws[..i], raw, seen);
      seen := seen[safe.value := raw];
      forward := forward[raw := safe.value];
    }
    assert raws[..|raws|] == raws;
    return Ok(forward);
  }

  ghost predicate ComesBefore(raws: seq<string>, a: string, b: string) {
    exists i, j :: 0 <= i < j < |raws| && raws[i] == a && raws[j] == b
  }

  lemma EarlierComesBefore(raws: seq<string>, j: nat, a: string)
    requires j < |raws| && a in raws[..j]
    ensures ComesBefore(raws, a, raws[j])
  {
    var i :| 0 <= i < j && raws[..j][i] == a;
    assert raws[i] == a;
  }

  lemma NotBuildable(raws: seq<string>, a: string, b: string)
    requires a in raws && b in raws && a != b && Folded(a) == Folded(b)
    ensures !Buildable(raws)
  {
    var i :| 0 <= i < |raws| && raws[i] == a;
    var j :| 0 <= j < |raws| && raws[j] == b;
  }

  /** `seen` finds every name so far by its fold. */
  ghost predicate Indexes(seen: map<string, string>, raws: seq<string>) {
    && (forall safe :: safe in seen ==> seen[safe] in raws && Folded(seen[safe]) == safe)
    && (forall raw :: raw in raws ==> Folded(raw) in seen)
  }

  lemma EmptyIsBuildable()
    ensures Buildable([]) && Forward([]) == map[] && Indexes(map[], [])
  {
  }

  lemma IndexedName(seen: map<string, string>, raws: seq<string>, safe: string)
    requires Indexes(seen, raws) && safe in seen
    ensures seen[safe] in raws && Folded(seen[safe]) == safe
  {
  }

  lemma UnusableIsNotBuildable(raws: seq<string>, raw: string)
    requires raw in raws && !Usable(raw)
    ensures !Buildable(raws)
  {
  }

  lemma BuildableNext(raws: seq<string>, raw: string, seen: map<string, string>)
    requires Buildable(raws) && Indexes(seen, raws) && Usable(raw)
    requires Folded(raw) in seen ==> seen[Folded(raw)] == raw
    ensures Buildable(raws + [raw])
    ensures Forward(raws + [raw]) == Forward(raws)[raw := Folded(raw)]
    ensures Indexes(seen[Folded(raw) := raw], raws + [raw])
  {
    hide Usable, Folded;
    forall k | 0 <= k < |raws| && Folded(raws[k]) == Folded(raw)
      ensures raws[k] == raw
    {
      assert raws[k] in raws;
      var j :| 0 <= j < |raws| && raws[j] == seen[Folded(raw)];
    }
  }

  /** Looks up a name in the map built from `raws`. */
  method Safe(forward: map<string, string>, raw: string, ghost raws: seq<string>) returns (r: Result<string, IdentifierError>)
    requires forward == Forward(raws)
    ensures r.Ok? <==> raw in raws
    ensures r.Ok? ==> r.value == Folded(raw)
    ensures r.Err? ==> r.error == NotInSet(raw)
  {
    return if raw in forward then Ok(forward[raw]) else Err(NotInSet(raw));
  }

  /** A map that was built never sends two source names to one identifier. */
  lemma ForwardIsInjective(raws: seq<string>, a: string, b: string)
    requires Buildable(raws) && a in raws && b in raws && Forward(raws)[a] == Forward(raws)[b]
    ensures a == b
  {
    var i :| 0 <= i < |raws| && raws[i] == a;
    var j :| 0 <= j < |raws| && raws[j] == b;
  }

  // ----- folding -----

  lemma LowerKeepsSpace(c: char)
    ensures IsSpace(LowerChar(c)) <==> IsSpace(c)
  {
  }

  lemma {:induction false} StripLeftLower(s: string)
    ensures StripLeft(Lower(s)) == Lower(StripLeft(s))
  {
    if s != "" {
      LowerKeepsSpace(s[0]);
      assert Lower(s)[1..] == Lower(s[1..]);
      StripLeftLower(s[1..]);
    }
  }

  lemma {:induction false} StripRightLower(s: string)
    ensures StripRight(Lower(s)) == Lower(StripRight(s))
    decreases |s|
  {
    if s != "" {
      var last := |s| - 1;
      LowerKeepsSpace(s[last]);
      assert Lower(s)[..last] == Lower(s[..last]);
      StripRightLower(s[..last]);
    }
  }

  /** Names that differ only in case fold together. */
  lemma FoldIgnoresCase(a: string, b: string)
    requires Lower(a) == Lower(b)
    ensures Folded(a) == Folded(b)
  {
    StripLeftLower(a);
    StripLeftLower(b);
    StripRightLower(StripLeft(a));
    StripRightLower(StripLeft(b));
  }

  lemma {:induction false} StripIsTight(s: string)
    requires s != "" ==> !IsSpace(s[0]) && !IsSpace(s[|s| - 1])
    ensures Strip(s) == s
  {
  }

  lemma LowerIdempotent(s: string)
    ensures Lower(Lower(s)) == Lower(s)
  {
    forall i | 0 <= i < |s|
      ensures LowerChar(LowerChar(s[i])) == LowerChar(s[i])
    {
    }
  }

  lemma {:induction false} StripLeftStarts(s: string)
    ensures StripLeft(s) != "" ==> !IsSpace(StripLeft(s)[0])
  {
    if s != "" && IsSpace(s[0]) { StripLeftStarts(s[1..]); }
  }

  lemma {:induction false} StripRightEnds(s: string)
    ensures var r := StripRight(s); r != "" ==> !IsSpace(r[|r| - 1]) && r[0] == s[0]
    decreases |s|
  {
    if s != "" && IsSpace(s[|s| - 1]) { StripRightEnds(s[..|s| - 1]); }
  }

  /** Folding an identifier again changes nothing: a converted schema converts to itself. */
  lemma FoldIsIdempotent(raw: string)
    ensures Folded(Folded(raw)) == Folded(raw)
  {
    var s := Strip(raw);
    StripLeftStarts(raw);
    StripRightEnds(StripLeft(raw));
    if s != "" {
      LowerKeepsSpace(s[0]);
      LowerKeepsSpace(s[|s| - 1]);
    }
    StripIsTight(Lower(s));
    LowerIdempotent(s);
  }

  /** Two source names the fold cannot tell apart, one of them not ASCII. */
  lemma KelvinCollides()
    ensures Folded("k") == Folded("K") == Folded("\U{212A}") == "k"
    ensures !Buildable(["k", "\U{212A}"])
  {
    var kelvin := "\U{212A}";
    StripIsTight("k");
    StripIsTight("K");
    StripIsTight(kelvin);
    assert Lower("k") == "k" && Lower("K") == "k" && Lower(kelvin) == "k";
    assert "k"[0] != kelvin[0];
    assert ["k", kelvin][0] != ["k", kelvin][1];
  }

  // ----- what is accepted -----

  predicate Blank(s: string) {
    forall i :: 0 <= i < |s| ==> IsSpace(s[i])
  }

  predicate Tight(s: string) {
    s != "" ==> !IsSpace(s[0]) && !IsSpace(s[|s| - 1])
  }

  /** White space by code point, as Unicode lists it together with the four information separators. */
  lemma SpacesAre(c: char)
    ensures IsSpace(c) <==>
            c as int in {9, 10, 11, 12, 13, 28, 29, 30, 31, 32, 0x85, 0xA0, 0x1680,
                         0x2000, 0x2001, 0x2002, 0x2003, 0x2004, 0x2005, 0x2006, 0x2007, 0x2008, 0x2009, 0x200A,
                         0x2028, 0x2029, 0x202F, 0x205F, 0x3000}
  {
  }

  lemma {:induction false} StripLeftDrops(left: string, s: string)
    requires Blank(left) && (s != "" ==> !IsSpace(s[0]))
    ensures StripLeft(left + s) == s
  {
    if left == "" {
      assert left + s == s;
    } else {
      assert (left + s)[1..] == left[1..] + s;
      StripLeftDrops(left[1..], s);
    }
  }

  lemma {:induction false} StripRightDrops(s: string, right: string)
    requires Blank(right) && (s != "" ==> !IsSpace(s[|s| - 1]))
    ensures StripRight(s + right) == s
    decreases |right|
  {
    var last := |right| - 1;
    if right == "" {
      assert s + right == s;
    } else {
      assert (s + right)[..|s + right| - 1] == s + right[..last];
      StripRightDrops(s, right[..last]);
    }
  }

  /** Stripping takes off the blank ends and nothing else. */
  lemma StripMeans(left: string, core: string, right: string)
    requires Blank(left) && Blank(right) && Tight(core)
    ensures Strip(left + core + right) == core
  {
    if core == "" {
      assert left + core + right == (left + right) + "";
      StripLeftDrops(left + right, "");
    } else {
      assert left + core + right == left + (core + right);
      StripLeftDrops(left, core + right);
      StripRightDrops(core, right);
    }
  }

  /** Printable ASCII other than a double quote and a backslash, or the Kelvin sign. */
  predicate AcceptedChar(c: char) {
    (0x20 <= c as int <= 0x7E && c as int != 0x22 && c as int != 0x5C) || c as int == 0x212A
  }

  lemma LowerMeans(c: char)
    ensures LowerChar(c) as int ==
            if 0x41 <= c as int <= 0x5A then c as int + 0x20 else if c as int == 0x212A then 0x6B else c as int
    ensures Allowed(LowerChar(c)) <==> AcceptedChar(c)
  {
  }

  lemma LowerIsAllowed(core: string)
    ensures (forall i :: 0 <= i < |core| ==> Allowed(Lower(core)[i])) <==> forall c :: c in core ==> AcceptedChar(c)
  {
    hide LowerChar, Allowed, AcceptedChar;
    forall c { LowerMeans(c); }
    forall i | 0 <= i < |core|
      ensures core[i] in core && Lower(core)[i] == LowerChar(core[i])
    {
    }
  }

  /**
   A name is accepted exactly when its stripped form has 1 to 63 accepted characters; only
   capital letters and the Kelvin sign change.
   */
  lemma AcceptedNames(left: string, core: string, right: string)
    requires Blank(left) && Blank(right) && Tight(core)
    ensures Usable(left + core + right) <==>
            && 1 <= |core| <= 63
            && forall c :: c in core ==> AcceptedChar(c)
    ensures |Folded(left + core + right)| == |core|
    ensures forall i :: 0 <= i < |core| ==>
              var c, f := core[i] as int, Folded(left + core + right)[i] as int;
              f == if 0x41 <= c <= 0x5A then c + 0x20 else if c == 0x212A then 0x6B else c
  {
    hide Strip, LowerChar, Allowed, AcceptedChar, Blank, Tight, IsSpace;
    StripMeans(left, core, right);
    assert Folded(left + core + right) == Lower(core);
    LowerIsAllowed(core);
    forall c { LowerMeans(c); }
  }

  /** Every name has such a form. */
  lemma StrippedForm(raw: string) returns (left: string, core: string, right: string)
    ensures raw == left + core + right && Blank(left) && Blank(right) && Tight(core)
  {
    hide IsSpace;
    left, core, right := "", raw, "";
    while core != "" && IsSpace(core[0])
      invariant raw == left + core && Blank(left)
      decreases |core|
    {
      left, core := left + [core[0]], core[1..];
    }
    while core != "" && IsSpace(core[|core| - 1])
      invariant raw == left + core + right && Blank(left) && Blank(right)
      invariant core != "" ==> !IsSpace(core[0])
      decreases |core|
    {
      right, core := [core[|core| - 1]] + right, core[..|core| - 1];
    }
  }
}
