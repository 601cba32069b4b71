/**
 Dimension names: the normalisation that both the claim index and the packet
 handlers apply, so that a name written either way meets the same bucket.
 */
module Dimensions {
  import opened Numbers

  const OVERWORLD: string := "minecraft:overworld"
  const NETHER: string := "minecraft:nether"
  const END: string := "minecraft:end"

  /** Latin-1 part of Go's `unicode.IsSpace`. */
  predicate IsSpace(c: char) {
    '\t' <= c <= '\r' || c == ' ' || c == '\U{0085}' || c == '\U{00A0}'
  }

  /** ASCII part of Go's `unicode.ToLower`. */
  function LowerChar(c: char): char {
    if 'A' <= c <= 'Z' then 'a' + (c - 'A') else c
  }

  function ToLower(s: string): (r: string)
    ensures |r| == |s|
    ensures forall i :: 0 <= i < |s| ==> r[i] == LowerChar(s[i])
  {
    seq(|s|, i requires 0 <= i < |s| => LowerChar(s[i]))
  }

  function TrimLeft(s: string): string {
    if s != "" && IsSpace(s[0]) then TrimLeft(s[1..]) else s
  }

  function TrimRight(s: string): string {
    if s != "" && IsSpace(s[|s| - 1]) then TrimRight(s[..|s| - 1]) else s
  }

  function TrimSpace(s: string): string {
    TrimRight(TrimLeft(s))
  }

  /** `strings.Split` with a one-character separator. */
  function Split(s: string, separator: char): (parts: seq<string>)
    ensures |parts| >= 1
  {
    if s == "" then [""]
    else
      var rest := Split(s[1..], separator);
      if s[0] == separator then [""] + rest else [[s[0]] + rest[0]] + rest[1..]
  }

  function ResolveAlias(value: string): string {
    if value == "overworld" then OVERWORLD
    else if value == "nether" then NETHER
    else if value == "end" || value == "the_end" then END
    else value
  }

  /** The normalised name, and whether it is a well-formed namespaced identifier. */
  function CanonicalDimension(value: string): (string, bool) {
    var name := ResolveAlias(ToLower(TrimSpace(value)));
    var parts := Split(name, ':');
    (name, |parts| == 2 && parts[0] != "" && parts[1] != "")
  }

  // ---------------------------------------------------------------------------
  // What normalisation guarantees
  // ---------------------------------------------------------------------------

  ghost predicate OnlyColonAt(s: string, i: nat) {
    i < |s| && s[i] == ':' && forall j :: 0 <= j < |s| && s[j] == ':' ==> j == i
  }

  /** `s` has exactly one colon, with text on both sides of it. */
  ghost predicate Namespaced(s: string) {
    exists i :: 0 < i < |s| - 1 && OnlyColonAt(s, i)
  }

  predicate Trimmed(s: string) {
    s == "" || (!IsSpace(s[0]) && !IsSpace(s[|s| - 1]))
  }

  lemma {:induction false} SplitWithout(s: string)
    ensures |Split(s, ':')| == 1 <==> ':' !in s
    ensures |Split(s, ':')| == 1 ==> Split(s, ':')[0] == s
  {
    if s != "" {
      SplitWithout(s[1..]);
      assert s == [s[0]] + s[1..];
    }
  }

  /** Splitting gives two non-empty parts exactly for namespaced identifiers. */
  lemma SplitNamespaced(s: string)
    ensures (|Split(s, ':')| == 2 && Split(s, ':')[0] != "" && Split(s, ':')[1] != "") <==> Namespaced(s)
  {
    hide Split;
    if |Split(s, ':')| == 2 {
      SplitAt(s);
    }
    if i :| 0 < i < |s| - 1 && OnlyColonAt(s, i) {
      OneColonSplits(s, i);
      SplitAt(s);
    }
  }

  lemma ColonInRest(s: string, i: nat)
    requires s != "" && s[0] != ':' && i > 0
    ensures OnlyColonAt(s, i) <==> OnlyColonAt(s[1..], i - 1)
  {
    var t := s[1..];
    assert forall j :: 0 < j < |s| ==> s[j] == t[j - 1];
    if OnlyColonAt(t, i - 1) {
      forall j | 0 <= j < |s| && s[j] == ':' ensures j == i {
        assert t[j - 1] == ':';
      }
    }
    if OnlyColonAt(s, i) {
      forall j | 0 <= j < |t| && t[j] == ':' ensures j == i - 1 {
        assert s[j + 1] == ':';
      }
    }
  }

  /** Two parts mean one colon, and the parts are the text before and after it. */
  lemma {:induction false} SplitAt(s: string)
    requires |Split(s, ':')| == 2
    ensures OnlyColonAt(s, |Split(s, ':')[0]|) && Split(s, ':')[1] == s[|Split(s, ':')[0]| + 1..]
  {
    var t := s[1..];
    if s[0] == ':' {
      SplitWithout(t);
      assert forall j :: 0 < j < |s| ==> s[j] == t[j - 1];
    } else {
      SplitAt(t);
      ColonInRest(s, |Split(t, ':')[0]| + 1);
    }
  }

  lemma {:induction false} OneColonSplits(s: string, i: nat)
    requires OnlyColonAt(s, i)
    ensures |Split(s, ':')| == 2
  {
    var t := s[1..];
    if i == 0 {
      SplitWithout(t);
      assert forall j :: 0 <= j < |t| ==> t[j] == s[j + 1];
    } else {
      ColonInRest(s, i);
      OneColonSplits(t, i - 1);
    }
  }

  lemma {:induction false} TrimLeftStarts(s: string)
    ensures TrimLeft(s) == "" || !IsSpace(TrimLeft(s)[0])
  {
    if s != "" && IsSpace(s[0]) {
      TrimLeftStarts(s[1..]);
    }
  }

  lemma {:induction false} TrimRightEnds(s: string)
    ensures TrimRight(s) == "" || (!IsSpace(TrimRight(s)[|TrimRight(s)| - 1]) && TrimRight(s)[0] == s[0])
  {
    if s != "" && IsSpace(s[|s| - 1]) {
      TrimRightEnds(s[..|s| - 1]);
    }
  }

  lemma TrimSpaceTrims(s: string)
    ensures Trimmed(TrimSpace(s))
    ensures Trimmed(s) ==> TrimSpace(s) == s
  {
    TrimLeftStarts(s);
    TrimRightEnds(TrimLeft(s));
  }

  lemma LowerKeepsSpace(c: char)
    ensures IsSpace(LowerChar(c)) <==> IsSpace(c)
    ensures LowerChar(LowerChar(c)) == LowerChar(c)
  {
  }

  /** A trimmed lower-case name is untouched by trimming and lower-casing again. */
  lemma LowerTrimIsStable(s: string)
    ensures ToLower(TrimSpace(ToLower(TrimSpace(s)))) == ToLower(TrimSpace(s))
  {
    var t := ToLower(TrimSpace(s));
    TrimSpaceTrims(s);
    forall i | 0 <= i < |t| ensures LowerChar(t[i]) == t[i] && (IsSpace(t[i]) <==> IsSpace(TrimSpace(s)[i])) {
      LowerKeepsSpace(TrimSpace(s)[i]);
    }
    TrimSpaceTrims(t);
  }

  /** Trimmed, without upper-case letters, and with its one colon at `colon`, inside the text. */
  predicate NormalForm(s: string, colon: nat) {
    && Trimmed(s)
    && 0 < colon < |s| - 1 && s[colon] == ':'
    && forall i :: 0 <= i < |s| ==> LowerChar(s[i]) == s[i] && (s[i] == ':' ==> i == colon)
  }

  lemma NormalFormIsFixed(s: string, colon: nat)
    requires NormalForm(s, colon)
    ensures CanonicalDimension(s) == (s, true)
  {
    hide Split, TrimSpace;
    TrimSpaceTrims(s);
    assert ToLower(s) == s;
    assert ':' in s;
    assert ResolveAlias(s) == s;
    assert OnlyColonAt(s, colon);
    SplitNamespaced(s);
  }

  lemma NamespacedVanilla()
    ensures CanonicalDimension(OVERWORLD) == (OVERWORLD, true)
    ensures CanonicalDimension(NETHER) == (NETHER, true)
    ensures CanonicalDimension(END) == (END, true)
  {
    hide CanonicalDimension;
    assert CanonicalDimension(OVERWORLD) == (OVERWORLD, true) by {
      assert NormalForm(OVERWORLD, 9);
      NormalFormIsFixed(OVERWORLD, 9);
    }
    assert CanonicalDimension(NETHER) == (NETHER, true) by {
      assert NormalForm(NETHER, 9);
      NormalFormIsFixed(NETHER, 9);
    }
    assert CanonicalDimension(END) == (END, true) by {
      assert NormalForm(END, 9);
      NormalFormIsFixed(END, 9);
    }
  }

  /** Every way to write a vanilla dimension, in any case and with spaces around it. */
  lemma VanillaNames(value: string)
    ensures ToLower(TrimSpace(value)) in ["overworld", OVERWORLD] ==> CanonicalDimension(value) == (OVERWORLD, true)
    ensures ToLower(TrimSpace(value)) in ["nether", NETHER] ==> CanonicalDimension(value) == (NETHER, true)
    ensures ToLower(TrimSpace(value)) in ["end", "the_end", END] ==> CanonicalDimension(value) == (END, true)
  {
    NamespacedVanilla();
    hide Split;
    var lowered := ToLower(TrimSpace(value));
    LowerTrimIsStable(value);
    hide TrimSpace, ToLower;
    if lowered in ["overworld", OVERWORLD] {
      assert ResolveAlias(lowered) == OVERWORLD;
    } else if lowered in ["nether", NETHER] {
      assert ResolveAlias(lowered) == NETHER;
    } else if lowered in ["end", "the_end", END] {
      assert ResolveAlias(lowered) == END;
    }
  }

  /** Blank by its number: tab to carriage return, space, next line and no-break space. */
  predicate Blank(c: char) {
    c as int in {9, 10, 11, 12, 13, 32, 133, 160}
  }

  predicate AllBlank(s: string) {
    forall i :: 0 <= i < |s| ==> Blank(s[i])
  }

  /** The value is the text with blanks around it, and the text has none at its ends. */
  ghost predicate Surrounds(value: string, left: string, text: string, right: string) {
    value == left + text + right && AllBlank(left) && AllBlank(right)
    && (text == "" || (!Blank(text[0]) && !Blank(text[|text| - 1])))
  }

  /** Character by character, capitals are moved up 32 places and everything else stays. */
  ghost predicate LowerOf(low: string, text: string) {
    |low| == |text|
    && forall i :: 0 <= i < |text| ==> low[i] as int == if 65 <= text[i] as int <= 90 then text[i] as int + 32 else text[i] as int
  }

  lemma {:induction false} TrimLeftDrops(left: string, rest: string)
    requires AllBlank(left) && (rest == "" || !Blank(rest[0]))
    ensures TrimLeft(left + rest) == rest
  {
    if left == "" {
      assert left + rest == rest;
    } else {
      TrimLeftDrops(left[1..], rest);
      assert (left + rest)[1..] == left[1..] + rest;
    }
  }

  lemma {:induction false} TrimRightDrops(text: string, right: string)
    requires AllBlank(right) && (text == "" || !Blank(text[|text| - 1]))
    ensures TrimRight(text + right) == text
  {
    if right == "" {
      assert text + right == text;
    } else {
      var n := |right| - 1;
      TrimRightDrops(text, right[..n]);
      assert (text + right)[..|text + right| - 1] == text + right[..n];
    }
  }

  /** Every value is some text with blanks around it. */
  lemma {:induction false} HasText(value: string) returns (left: string, text: string, right: string)
    ensures Surrounds(value, left, text, right)
  {
    if value == "" {
      left, text, right := "", "", "";
    } else if Blank(value[0]) {
      left, text, right := HasText(value[1..]);
      left := [value[0]] + left;
    } else if Blank(value[|value| - 1]) {
      left, text, right := HasText(value[..|value| - 1]);
      right := right + [value[|value| - 1]];
      left, text := "", left + text;
    } else {
      left, text, right := "", value, "";
    }
  }

  /** Normalisation on the characters: the blanks go, capitals are lowered, and the four short names get their namespace. */
  lemma NormalisedOnCharacters(value: string, left: string, text: string, right: string, low: string)
    requires Surrounds(value, left, text, right) && LowerOf(low, text)
    ensures CanonicalDimension(value).0 ==
            if low == "overworld" then "minecraft:overworld"
            else if low == "nether" then "minecraft:nether"
            else if low == "end" || low == "the_end" then "minecraft:end"
            else low
    ensures CanonicalDimension(value).1 <==> Namespaced(CanonicalDimension(value).0)
  {
    AcceptedIffNamespaced(value);
    hide Split, Namespaced;
    assert value == left + (text + right);
    if text == "" {
      assert value == (left + right) + "";
      TrimLeftDrops(left + right, "");
    } else {
      TrimLeftDrops(left, text + right);
      TrimRightDrops(text, right);
    }
    assert TrimSpace(value) == text;
    assert ToLower(text) == low;
  }

  /** A name is accepted exactly when, trimmed, lowered and with its alias resolved, it is namespaced. */
  lemma AcceptedIffNamespaced(value: string)
    ensures CanonicalDimension(value).1 <==> Namespaced(CanonicalDimension(value).0)
  {
    SplitNamespaced(CanonicalDimension(value).0);
  }

  /** Normalising again changes nothing: index keys are fixed points. */
  lemma CanonicalIsFixedPoint(value: string)
    ensures CanonicalDimension(CanonicalDimension(value).0) == CanonicalDimension(value)
  {
    hide Split, TrimSpace, ToLower, OVERWORLD, NETHER, END;
    var lowered := ToLower(TrimSpace(value));
    NamespacedVanilla();
    VanillaNames(value);
    LowerTrimIsStable(value);
    if lowered != "overworld" && lowered != "nether" && lowered != "end" && lowered != "the_end" {
      assert ResolveAlias(lowered) == lowered;
    }
  }

  // ---------------------------------------------------------------------------
  // Packet dimension ids
  // ---------------------------------------------------------------------------

  /** A dimension the backend announced: its numeric type and its name. */
  datatype DimensionDefinition = DimensionDefinition(name: string, dimensionType: int32)

  /** Every definition of `dimension` names `name`, and there is one. */
  ghost predicate NamesDimension(dimension: int32, definitions: seq<DimensionDefinition>, name: string) {
    && (exists i :: 0 <= i < |definitions| && definitions[i].dimensionType == dimension)
    && (forall i :: 0 <= i < |definitions| && definitions[i].dimensionType == dimension ==>
          CanonicalDimension(definitions[i].name) == (name, true))
  }

  /** The claim dimension a packet dimension id stands for: vanilla ids are fixed. */
  ghost predicate ResolvesTo(dimension: int32, definitions: seq<DimensionDefinition>, name: string) {
    if dimension == 0 then name == OVERWORLD
    else if dimension == 1 then name == NETHER
    else if dimension == 2 then name == END
    else NamesDimension(dimension, definitions, name)
  }

  lemma CanonicalIsNotEmpty(value: string)
    ensures CanonicalDimension(value).1 ==> CanonicalDimension(value).0 != ""
  {
  }

  /**
   Resolves a packet dimension id. It succeeds exactly when some name is the one
   every matching definition normalises to, and then returns that name.
   */
  method ClaimDimensionFromInt(dimension: int32, definitions: seq<DimensionDefinition>)
    returns (name: string, ok: bool)
    ensures ok ==> ResolvesTo(dimension, definitions, name)
    ensures !ok ==> forall other :: !ResolvesTo(dimension, definitions, other)
  {
    if dimension == 0 { return OVERWORLD, true; }
    if dimension == 1 { return NETHER, true; }
    if dimension == 2 { return END, true; }
    name, ok := ResolveCustom(dimension, definitions);
  }

  method ResolveCustom(dimension: int32, definitions: seq<DimensionDefinition>) returns (name: string, ok: bool)
    ensures ok ==> NamesDimension(dimension, definitions, name)
    ensures !ok ==> forall other :: !NamesDimension(dimension, definitions, other)
  {
    hide CanonicalDimension;
    var resolved := "";
    for n := 0 to |definitions|
      invariant AllAgree(dimension, definitions[..n], resolved)
    {
      var definition := definitions[n];
      assert definitions[..n + 1] == definitions[..n] + [definition];
      if definition.dimensionType != dimension {
        continue;
      }
      var (candidate, accepted) := CanonicalDimension(definition.name);
      if !accepted || (resolved != "" && resolved != candidate) {
        Disagreement(dimension, definitions, n, resolved);
        return "", false;
      }
      CanonicalIsNotEmpty(definition.name);
      resolved := candidate;
    }
    assert definitions[..|definitions|] == definitions;
    return resolved, resolved != "";
  }

  /** What the loop knows: "" before the first matching definition, their common name after it. */
  ghost predicate AllAgree(dimension: int32, definitions: seq<DimensionDefinition>, resolved: string) {
    if resolved == "" then forall i :: 0 <= i < |definitions| ==> definitions[i].dimensionType != dimension
    else NamesDimension(dimension, definitions, resolved)
  }

  lemma Disagreement(dimension: int32, definitions: seq<DimensionDefinition>, n: nat, resolved: string)
    requires n < |definitions| && definitions[n].dimensionType == dimension
    requires AllAgree(dimension, definitions[..n], resolved)
    requires CanonicalDimension(definitions[n].name).1 ==>
               resolved != "" && resolved != CanonicalDimension(definitions[n].name).0
    ensures forall other :: !NamesDimension(dimension, definitions, other)
  {
  }

  /** A resolved name is a fixed point of normalisation, like the keys of the claim index. */
  lemma ResolvedIsCanonical(dimension: int32, definitions: seq<DimensionDefinition>, name: string)
    requires ResolvesTo(dimension, definitions, name)
    ensures CanonicalDimension(name) == (name, true)
  {
    NamespacedVanilla();
    if dimension > 2 || dimension < 0 {
      var i :| 0 <= i < |definitions| && definitions[i].dimensionType == dimension;
      CanonicalIsFixedPoint(definitions[i].name);
    }
  }
}
