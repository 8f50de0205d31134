/**
 * The response normaliser of analyzeWasteImage (services/geminiService.ts):
 * everything the function does around its single call to the vision model.
 * The model call is a parameter `generate`, and JSON.parse is a parameter
 * `parse` that either yields a JSON value or fails.
 */
module GeminiService {
  import opened Wrappers
  import opened JsonValues
  import opened JsString
  import opened Types

  // ---------------------------------------------------------------------
  // Stripping the data-URI header: replace(/^data:image\/\w+;base64,/, "")
  // ---------------------------------------------------------------------

  const DataImagePrefix: string := "data:image/"
  const Base64Marker: string := ";base64,"

  /** A character of the regular-expression class \w (no Unicode flag). */
  predicate IsWordChar(c: char)
  {
    'a' <= c <= 'z' || 'A' <= c <= 'Z' || '0' <= c <= '9' || c == '_'
  }

  /** The length of the longest prefix made of \w characters. */
  function WordRun(s: string): (n: nat)
    ensures n <= |s|
    ensures forall k :: 0 <= k < n ==> IsWordChar(s[k])
    ensures n == |s| || !IsWordChar(s[n])
    decreases |s|
  {
    if |s| > 0 && IsWordChar(s[0]) then 1 + WordRun(s[1..]) else 0
  }

  /** The pattern `^data:image\/\w+;base64,` matches exactly `s[..k]`. */
  ghost predicate DataUriPrefixEndsAt(s: string, k: int)
  {
    && |DataImagePrefix| + 1 + |Base64Marker| <= k <= |s|
    && s[..|DataImagePrefix|] == DataImagePrefix
    && (forall i :: |DataImagePrefix| <= i < k - |Base64Marker| ==> IsWordChar(s[i]))
    && s[k - |Base64Marker|..k] == Base64Marker
  }

  /**
   * The image payload with a leading `data:image/<word>;base64,` header
   * removed. The result is the input itself or a suffix at least 20
   * characters shorter (the shortest header).
   */
  function StripDataUriPrefix(s: string): (r: string)
    ensures r == s || (|r| + 20 <= |s| && r == s[|s| - |r|..])
  {
    if |s| >= |DataImagePrefix| && s[..|DataImagePrefix|] == DataImagePrefix then
      var rest := s[|DataImagePrefix|..];
      var n := WordRun(rest);
      if n > 0 && n + |Base64Marker| <= |rest| && rest[n..n + |Base64Marker|] == Base64Marker
      then rest[n + |Base64Marker|..]
      else s
    else s
  }

  /** Stripping removes exactly the text the pattern matches at position 0. */
  lemma StripRemovesMatch(s: string, k: int)
    requires DataUriPrefixEndsAt(s, k)
    ensures StripDataUriPrefix(s) == s[k..]
  {
    var rest := s[11..];
    var m := k - 8 - 11;
    var n := WordRun(rest);
    forall i | 0 <= i < m ensures IsWordChar(rest[i]) {
      assert rest[i] == s[11 + i];
    }
    assert rest[m] == ';' by {
      assert rest[m] == s[k - 8] == s[k - 8..k][0];
    }
    assert n == m;
    assert rest[n..n + 8] == s[k - 8..k];
    assert rest[n + 8..] == s[k..];
  }

  /** A string the pattern does not match at position 0 is returned unchanged. */
  lemma StripKeepsUnmatched(s: string)
    requires forall k :: !DataUriPrefixEndsAt(s, k)
    ensures StripDataUriPrefix(s) == s
  {
    if StripDataUriPrefix(s) != s {
      var rest := s[11..];
      var n := WordRun(rest);
      var k := 11 + n + 8;
      forall i | 11 <= i < k - 8 ensures IsWordChar(s[i]) {
        assert s[i] == rest[i - 11];
      }
      assert s[k - 8..k] == rest[n..n + 8];
      assert DataUriPrefixEndsAt(s, k);
    }
  }

  /** A well-formed header with a non-empty subtype is removed, whatever follows it (even another header). */
  lemma StripRemovesHeader(subtype: string, payload: string)
    requires |subtype| > 0 && forall k :: 0 <= k < |subtype| ==> IsWordChar(subtype[k])
    ensures StripDataUriPrefix(DataImagePrefix + subtype + Base64Marker + payload) == payload
  {
    var s := DataImagePrefix + subtype + Base64Marker + payload;
    var k := 11 + |subtype| + 8;
    assert s[..11] == DataImagePrefix;
    assert s[k - 8..k] == Base64Marker;
    forall i | 11 <= i < k - 8 ensures IsWordChar(s[i]) {
      assert s[i] == subtype[i - 11];
    }
    assert DataUriPrefixEndsAt(s, k);
    StripRemovesMatch(s, k);
    assert s[k..] == payload;
  }

  // ---------------------------------------------------------------------
  // Cleaning the response text (lines 57-58)
  // ---------------------------------------------------------------------

  const EmptyObjectText: string := "{}"
  const JsonFence: string := "```json"

  /** `response.text || "{}"`: missing or empty text becomes an empty object. */
  function ResponseText(text: Option<string>): (t: string)
    ensures t != ""
    ensures text.Some? && text.value != "" ==> t == text.value
    ensures text.None? || text.value == "" ==> t == EmptyObjectText
  {
    if text.Some? && text.value != "" then text.value else EmptyObjectText
  }

  /** `text.replace(/```json/g, '').replace(/```/g, '').trim()` */
  function CleanFences(text: string): (r: string)
    ensures |r| <= |text|
  {
    Trim(RemoveAll(RemoveAll(text, JsonFence), Fence))
  }

  /** The cleaned text is trimmed and holds no "```" at all. */
  lemma CleanFencesLeavesNoFence(text: string)
    ensures IsTrimmed(CleanFences(text)) && !Contains(CleanFences(text), Fence)
  {
    var u := RemoveAll(RemoveAll(text, JsonFence), Fence);
    FenceRemovalLeavesNoFence(RemoveAll(text, JsonFence));
    var i, j :| 0 <= i <= j <= |u| && CleanFences(text) == u[i..j];
    if Contains(u[i..j], Fence) {
      ContainsInSlice(u, i, j, Fence);
    }
  }

  /** Text without backticks and without surrounding whitespace is left as it is. */
  lemma CleanFencesKeepsPlainText(s: string)
    requires '`' !in s && IsTrimmed(s)
    ensures CleanFences(s) == s
  {
    MissingCharExcludes(s, JsonFence, '`');
    RemoveAllAbsent(s, JsonFence);
    MissingCharExcludes(s, Fence, '`');
    RemoveAllAbsent(s, Fence);
    TrimKeepsTrimmed(s);
  }

  /** A ```json code block around plain text cleans to exactly that text. */
  lemma CleanFencesUnwrapsBlock(s: string)
    requires '`' !in s && IsTrimmed(s)
    ensures CleanFences(JsonFence + "\n" + s + "\n" + Fence) == s
  {
    var inner := "\n" + s + "\n";
    assert '`' !in inner;
    var t := JsonFence + "\n" + s + "\n" + Fence;
    assert t == JsonFence + (inner + Fence);
    assert t[..|JsonFence|] == JsonFence;
    assert t[|JsonFence|..] == inner + Fence;
    RemoveAllKeepsPrefix(inner, Fence, JsonFence);
    RemoveAllShort(Fence, JsonFence);
    assert RemoveAll(t, JsonFence) == inner + Fence;
    RemoveAllKeepsPrefix(inner, Fence, Fence);
    assert Fence[..|Fence|] == Fence;
    assert Fence[|Fence|..] == [];
    assert RemoveAll(Fence, Fence) == [];
    assert inner + [] == inner;
    assert "\n" + s + "\n" == inner;
    TrimRemovesPadding("\n", s, "\n");
  }

  // ---------------------------------------------------------------------
  // The keyword classifier (lines 71-78)
  // ---------------------------------------------------------------------

  const BiodegradableKeywords: seq<string> := ["bio", "organic", "compost"]
  const NonRecyclableKeywords: seq<string> := ["non-recyclable", "residual", "landfill"]
  const RecyclableKeywords: seq<string> := ["recyclable", "paper", "plastic", "glass", "metal"]
  const HazardousKeywords: seq<string> := ["hazard", "toxic"]
  const EWasteKeywords: seq<string> := ["e-waste", "electronic"]

  /**
   * No keyword contains 'k' or ends in 'i'. Beyond ASCII, JavaScript's
   * lower-casing yields an ASCII letter only for U+212A (to 'k') and for
   * U+0130 (to 'i' followed by U+0307), so lowering only the ASCII letters
   * finds the same keywords.
   */
  lemma KeywordsAvoidNonAsciiLowerings(g: nat, k: nat)
    requires g < |KeywordRules| && k < |KeywordRules[g].0|
    ensures 'k' !in KeywordRules[g].0[k]
    ensures KeywordRules[g].0[k] != [] && KeywordRules[g].0[k][|KeywordRules[g].0[k]| - 1] != 'i'
  {
  }

  /** The keyword groups in the order they are tried, each with the category it selects. */
  const KeywordRules: seq<(seq<string>, WasteCategory)> := [
    (BiodegradableKeywords, Biodegradable),
    (NonRecyclableKeywords, NonRecyclable),
    (RecyclableKeywords, Recyclable),
    (HazardousKeywords, Hazardous),
    (EWasteKeywords, EWaste)]

  /** `s` includes at least one of the keywords. */
  predicate MentionsAny(s: string, keywords: seq<string>)
    decreases |keywords|
  {
    |keywords| > 0 && (Contains(s, keywords[0]) || MentionsAny(s, keywords[1..]))
  }

  /** The category of the first rule whose group `s` mentions, `Unknown` when none does. */
  function FirstMatch(rules: seq<(seq<string>, WasteCategory)>, s: string): WasteCategory
    decreases |rules|
  {
    if rules == [] then Unknown
    else if MentionsAny(s, rules[0].0) then rules[0].1
    else FirstMatch(rules[1..], s)
  }

  /** The category the normaliser derives from an already lower-cased category string. */
  function Classify(catStr: string): WasteCategory
  {
    FirstMatch(KeywordRules, catStr)
  }

  /** The classifier as the source writes it: a local reassigned by an if/else-if chain. */
  method ClassifyCategory(catStr: string) returns (category: WasteCategory)
    ensures category == Classify(catStr)
  {
    category := Unknown;
    if Contains(catStr, "bio") || Contains(catStr, "organic") || Contains(catStr, "compost") {
      category := Biodegradable;
    } else if Contains(catStr, "non-recyclable") || Contains(catStr, "residual") || Contains(catStr, "landfill") {
      category := NonRecyclable;
    } else if Contains(catStr, "recyclable") || Contains(catStr, "paper") || Contains(catStr, "plastic")
      || Contains(catStr, "glass") || Contains(catStr, "metal")
    {
      category := Recyclable;
    } else if Contains(catStr, "hazard") || Contains(catStr, "toxic") {
      category := Hazardous;
    } else if Contains(catStr, "e-waste") || Contains(catStr, "electronic") {
      category := EWaste;
    }
    ClassifyUnfolded(catStr);
  }

  lemma MentionsCons(s: string, keyword: string, rest: seq<string>)
    ensures MentionsAny(s, [keyword] + rest) <==> Contains(s, keyword) || MentionsAny(s, rest)
  {
    assert ([keyword] + rest)[1..] == rest;
  }

  /** The five groups, each read as the chain of `includes` calls the source writes. */
  lemma KeywordGroupsUnfolded(s: string)
    ensures MentionsAny(s, BiodegradableKeywords) <==>
      Contains(s, "bio") || Contains(s, "organic") || Contains(s, "compost")
    ensures MentionsAny(s, NonRecyclableKeywords) <==>
      Contains(s, "non-recyclable") || Contains(s, "residual") || Contains(s, "landfill")
    ensures MentionsAny(s, RecyclableKeywords) <==>
      Contains(s, "recyclable") || Contains(s, "paper") || Contains(s, "plastic") || Contains(s, "glass") || Contains(s, "metal")
    ensures MentionsAny(s, HazardousKeywords) <==> Contains(s, "hazard") || Contains(s, "toxic")
    ensures MentionsAny(s, EWasteKeywords) <==> Contains(s, "e-waste") || Contains(s, "electronic")
  {
    var none: seq<string> := [];
    MentionsCons(s, "compost", none);
    MentionsCons(s, "organic", ["compost"]);
    MentionsCons(s, "bio", ["organic", "compost"]);
    assert BiodegradableKeywords == ["bio"] + ["organic", "compost"];
    assert ["organic", "compost"] == ["organic"] + ["compost"];
    assert ["compost"] == ["compost"] + none;
    MentionsCons(s, "landfill", none);
    MentionsCons(s, "residual", ["landfill"]);
    MentionsCons(s, "non-recyclable", ["residual", "landfill"]);
    assert NonRecyclableKeywords == ["non-recyclable"] + ["residual", "landfill"];
    assert ["residual", "landfill"] == ["residual"] + ["landfill"];
    assert ["landfill"] == ["landfill"] + none;
    MentionsCons(s, "metal", none);
    MentionsCons(s, "glass", ["metal"]);
    MentionsCons(s, "plastic", ["glass", "metal"]);
    MentionsCons(s, "paper", ["plastic", "glass", "metal"]);
    MentionsCons(s, "recyclable", ["paper", "plastic", "glass", "metal"]);
    assert RecyclableKeywords == ["recyclable"] + ["paper", "plastic", "glass", "metal"];
    assert ["paper", "plastic", "glass", "metal"] == ["paper"] + ["plastic", "glass", "metal"];
    assert ["plastic", "glass", "metal"] == ["plastic"] + ["glass", "metal"];
    assert ["glass", "metal"] == ["glass"] + ["metal"];
    assert ["metal"] == ["metal"] + none;
    MentionsCons(s, "toxic", none);
    MentionsCons(s, "hazard", ["toxic"]);
    assert HazardousKeywords == ["hazard"] + ["toxic"];
    assert ["toxic"] == ["toxic"] + none;
    MentionsCons(s, "electronic", none);
    MentionsCons(s, "e-waste", ["electronic"]);
    assert EWasteKeywords == ["e-waste"] + ["electronic"];
    assert ["electronic"] == ["electronic"] + none;
  }

  lemma ClassifyUnfolded(s: string)
    ensures Classify(s) ==
      if Contains(s, "bio") || Contains(s, "organic") || Contains(s, "compost") then Biodegradable
      else if Contains(s, "non-recyclable") || Contains(s, "residual") || Contains(s, "landfill") then NonRecyclable
      else if Contains(s, "recyclable") || Contains(s, "paper") || Contains(s, "plastic")
        || Contains(s, "glass") || Contains(s, "metal") then Recyclable
      else if Contains(s, "hazard") || Contains(s, "toxic") then Hazardous
      else if Contains(s, "e-waste") || Contains(s, "electronic") then EWaste
      else Unknown
  {
    KeywordGroupsUnfolded(s);
    var r0 := KeywordRules;
    var r1 := r0[1..];
    var r2 := r1[1..];
    var r3 := r2[1..];
    var r4 := r3[1..];
    assert r0[0] == (BiodegradableKeywords, Biodegradable);
    assert r1[0] == (NonRecyclableKeywords, NonRecyclable);
    assert r2[0] == (RecyclableKeywords, Recyclable);
    assert r3[0] == (HazardousKeywords, Hazardous);
    assert r4[0] == (EWasteKeywords, EWaste);
    assert r4[1..] == [];
    assert FirstMatch(r4, s) == if MentionsAny(s, EWasteKeywords) then EWaste else Unknown;
    assert FirstMatch(r3, s) == if MentionsAny(s, HazardousKeywords) then Hazardous else FirstMatch(r4, s);
    assert FirstMatch(r2, s) == if MentionsAny(s, RecyclableKeywords) then Recyclable else FirstMatch(r3, s);
    assert FirstMatch(r1, s) == if MentionsAny(s, NonRecyclableKeywords) then NonRecyclable else FirstMatch(r2, s);
    assert FirstMatch(r0, s) == if MentionsAny(s, BiodegradableKeywords) then Biodegradable else FirstMatch(r1, s);
  }

  /** Every keyword, in the order the chain tries them. */
  const AllKeywords: seq<string> :=
    BiodegradableKeywords + NonRecyclableKeywords + RecyclableKeywords + HazardousKeywords + EWasteKeywords

  /** First match wins: the category chosen is that of the first rule whose group occurs. */
  lemma {:induction false} FirstMatchSelectsFirst(rules: seq<(seq<string>, WasteCategory)>, s: string, g: nat)
    requires g < |rules| && MentionsAny(s, rules[g].0)
    requires forall h :: 0 <= h < g ==> !MentionsAny(s, rules[h].0)
    ensures FirstMatch(rules, s) == rules[g].1
    decreases g
  {
    if g > 0 {
      assert !MentionsAny(s, rules[0].0);
      forall h | 0 <= h < g - 1 ensures !MentionsAny(s, rules[1..][h].0) {
        assert rules[1..][h] == rules[h + 1];
      }
      FirstMatchSelectsFirst(rules[1..], s, g - 1);
    }
  }

  /** With no rule selecting Unknown, the result is Unknown exactly when no group occurs. */
  lemma {:induction false} FirstMatchUnknownIff(rules: seq<(seq<string>, WasteCategory)>, s: string)
    requires forall g :: 0 <= g < |rules| ==> rules[g].1 != Unknown
    ensures FirstMatch(rules, s) == Unknown <==> forall g :: 0 <= g < |rules| ==> !MentionsAny(s, rules[g].0)
    decreases |rules|
  {
    if rules != [] {
      forall g | 0 <= g < |rules[1..]| ensures rules[1..][g].1 != Unknown {
        assert rules[1..][g] == rules[g + 1];
      }
      FirstMatchUnknownIff(rules[1..], s);
      if !MentionsAny(s, rules[0].0) {
        forall g | 0 < g < |rules| ensures rules[g] == rules[1..][g - 1] { }
      }
    }
  }

  /** The classifier answers Unknown exactly when the string mentions no keyword group. */
  lemma ClassifyUnknownIff(s: string)
    ensures Classify(s) == Unknown <==> forall g :: 0 <= g < |KeywordRules| ==> !MentionsAny(s, KeywordRules[g].0)
  {
    FirstMatchUnknownIff(KeywordRules, s);
  }

  /**
   * The precedence the order of the chain gives: a biodegradable keyword wins
   * over everything else, and "non-recyclable" never yields Recyclable.
   */
  lemma ClassifyPrecedence(s: string)
    ensures MentionsAny(s, BiodegradableKeywords) ==> Classify(s) == Biodegradable
    ensures Contains(s, "non-recyclable") ==> Classify(s) != Recyclable
    ensures Contains(s, "recyclable") ==> Classify(s) in {Biodegradable, NonRecyclable, Recyclable}
  {
    ClassifyUnfolded(s);
  }

  /** A category string with "organic" and "plastic" language is Biodegradable, not Recyclable. */
  lemma OrganicPlasticIsBiodegradable()
    ensures Classify("organic plastic") == Biodegradable
  {
    ClassifyUnfolded("organic plastic");
    assert OccursAt("organic plastic", "organic", 0);
  }

  /** A missing category reads as "" and classifies as Unknown. */
  lemma EmptyCategoryIsUnknown()
    ensures Classify("") == Unknown
  {
    ClassifyUnfolded("");
  }

  /** Without 'b' and one character shared by "organic" and "compost", no Biodegradable keyword can occur. */
  lemma NoBiodegradableKeyword(s: string, o: char)
    requires 'b' !in s && o in "organic" && o in "compost" && o !in s
    ensures !(Contains(s, "bio") || Contains(s, "organic") || Contains(s, "compost"))
  {
    MissingCharExcludes(s, "bio", 'b');
    MissingCharExcludes(s, "organic", o);
    MissingCharExcludes(s, "compost", o);
  }

  /**
   * Without 'l' and one character shared by "non-recyclable", "residual" and
   * "recyclable", no NonRecyclable keyword and no "recyclable" can occur.
   */
  lemma NoResidualKeyword(s: string, r: char)
    requires r in "non-recyclable" && r in "residual" && r in "recyclable" && r !in s && 'l' !in s
    ensures !(Contains(s, "non-recyclable") || Contains(s, "residual") || Contains(s, "landfill"))
    ensures !Contains(s, "recyclable")
  {
    MissingCharExcludes(s, "non-recyclable", r);
    MissingCharExcludes(s, "residual", r);
    MissingCharExcludes(s, "landfill", 'l');
    MissingCharExcludes(s, "recyclable", r);
  }

  /** Without 'p', 'g' and 'm' no paper, plastic, glass or metal keyword can occur. */
  lemma NoMaterialKeyword(s: string)
    requires 'p' !in s && 'g' !in s && 'm' !in s
    ensures !(Contains(s, "paper") || Contains(s, "plastic") || Contains(s, "glass") || Contains(s, "metal"))
  {
    MissingCharExcludes(s, "paper", 'p');
    MissingCharExcludes(s, "plastic", 'p');
    MissingCharExcludes(s, "glass", 'g');
    MissingCharExcludes(s, "metal", 'm');
  }

  /** Any string with a Biodegradable keyword is Biodegradable, whatever else it says. */
  lemma ClassifiedBiodegradable(s: string)
    requires Contains(s, "bio") || Contains(s, "organic") || Contains(s, "compost")
    ensures Classify(s) == Biodegradable
  {
    ClassifyUnfolded(s);
  }

  /** A string with "recyclable" whose characters rule out every earlier keyword is Recyclable. */
  lemma ClassifiedRecyclable(s: string)
    requires 'i' !in s && 'o' !in s && 's' !in s && 'n' !in s
    requires Contains(s, "recyclable")
    ensures Classify(s) == Recyclable
  {
    ClassifyUnfolded(s);
    MissingCharExcludes(s, "bio", 'i');
    MissingCharExcludes(s, "organic", 'o');
    MissingCharExcludes(s, "compost", 'o');
    MissingCharExcludes(s, "non-recyclable", 'n');
    MissingCharExcludes(s, "residual", 's');
    MissingCharExcludes(s, "landfill", 'n');
  }

  /** A string with "non-recyclable" whose characters rule out every Biodegradable keyword is NonRecyclable. */
  lemma ClassifiedNonRecyclable(s: string)
    requires 'i' !in s && 'g' !in s && 'm' !in s
    requires Contains(s, "non-recyclable")
    ensures Classify(s) == NonRecyclable
  {
    ClassifyUnfolded(s);
    MissingCharExcludes(s, "bio", 'i');
    MissingCharExcludes(s, "organic", 'g');
    MissingCharExcludes(s, "compost", 'm');
  }

  /** A string with "hazard" whose characters rule out every earlier keyword is Hazardous. */
  lemma ClassifiedHazardous(s: string)
    requires 'b' !in s && 'c' !in s && 'e' !in s && 'l' !in s && 'p' !in s && 'g' !in s && 'm' !in s
    requires Contains(s, "hazard")
    ensures Classify(s) == Hazardous
  {
    ClassifyUnfolded(s);
    NoBiodegradableKeyword(s, 'c');
    NoResidualKeyword(s, 'e');
    NoMaterialKeyword(s);
  }

  /** A string with "e-waste" whose characters rule out every earlier keyword is E-Waste. */
  lemma ClassifiedEWaste(s: string)
    requires 'b' !in s && 'o' !in s && 'r' !in s && 'l' !in s && 'p' !in s && 'g' !in s && 'm' !in s && 'h' !in s
    requires Contains(s, "e-waste")
    ensures Classify(s) == EWaste
  {
    ClassifyUnfolded(s);
    NoBiodegradableKeyword(s, 'o');
    NoResidualKeyword(s, 'r');
    NoMaterialKeyword(s);
    MissingCharExcludes(s, "hazard", 'h');
    MissingCharExcludes(s, "toxic", 'o');
  }

  /** A string whose characters rule out every keyword is Unknown. */
  lemma ClassifiedUnknown(s: string)
    requires 'b' !in s && 'c' !in s && 'r' !in s && 'l' !in s && 'p' !in s && 'g' !in s && 'm' !in s
    requires 'h' !in s && 't' !in s && 'e' !in s
    ensures Classify(s) == Unknown
  {
    ClassifyUnfolded(s);
    NoBiodegradableKeyword(s, 'c');
    NoResidualKeyword(s, 'r');
    NoMaterialKeyword(s);
    MissingCharExcludes(s, "hazard", 'h');
    MissingCharExcludes(s, "toxic", 't');
    MissingCharExcludes(s, "e-waste", 'e');
    MissingCharExcludes(s, "electronic", 'e');
  }

  lemma BiodegradableLabelClassifies()
    ensures Classify(ToLower(Label(Biodegradable))) == Biodegradable
  {
    assert ToLower(Label(Biodegradable)) == "biodegradable";
    assert OccursAt("biodegradable", "bio", 0);
    ClassifiedBiodegradable("biodegradable");
  }

  lemma RecyclableLabelClassifies()
    ensures Classify(ToLower(Label(Recyclable))) == Recyclable
  {
    assert ToLower(Label(Recyclable)) == "recyclable";
    assert OccursAt("recyclable", "recyclable", 0);
    ClassifiedRecyclable("recyclable");
  }

  lemma NonRecyclableLabelClassifies()
    ensures Classify(ToLower(Label(NonRecyclable))) == NonRecyclable
  {
    assert ToLower(Label(NonRecyclable)) == "non-recyclable";
    assert OccursAt("non-recyclable", "non-recyclable", 0);
    ClassifiedNonRecyclable("non-recyclable");
  }

  lemma HazardousLabelClassifies()
    ensures Classify(ToLower(Label(Hazardous))) == Hazardous
  {
    assert ToLower(Label(Hazardous)) == "hazardous";
    assert OccursAt("hazardous", "hazard", 0);
    ClassifiedHazardous("hazardous");
  }

  lemma EWasteLabelClassifies()
    ensures Classify(ToLower(Label(EWaste))) == EWaste
  {
    assert ToLower(Label(EWaste)) == "e-waste";
    assert OccursAt("e-waste", "e-waste", 0);
    ClassifiedEWaste("e-waste");
  }

  lemma UnknownLabelClassifies()
    ensures Classify(ToLower(Label(Unknown))) == Unknown
  {
    assert ToLower(Label(Unknown)) == "unknown";
    ClassifiedUnknown("unknown");
  }

  /** Every enum label, lower-cased and classified again, yields its own member. */
  lemma LabelClassifiesToItself(c: WasteCategory)
    ensures Classify(ToLower(Label(c))) == c
  {
    match c
    case Biodegradable => BiodegradableLabelClassifies();
    case Recyclable => RecyclableLabelClassifies();
    case NonRecyclable => NonRecyclableLabelClassifies();
    case Hazardous => HazardousLabelClassifies();
    case EWaste => EWasteLabelClassifies();
    case Unknown => UnknownLabelClassifies();
  }

  // ---------------------------------------------------------------------
  // Normalising one raw record (lines 70-89)
  // ---------------------------------------------------------------------

  /** Why a call failed. The caller only ever sees FailureMessage; the cause is for the proofs. */
  datatype Cause =
    | UpstreamFailed     // the model call itself threw
    | MalformedJson      // JSON.parse threw
    | NullRoot           // the response parsed to null: reading `parsed.items` throws
    | InvalidStructure   // no items array and no truthy itemName (line 66)
    | NullItem           // an element of items is null: reading `item.category` throws
    | CategoryNotString  // a category that is neither a string nor null: `toLowerCase` is not a function

  const UnknownItemName: Json := JString("Unknown Item")
  const UnknownMaterial: Json := JString("Unknown Material")
  const ZeroConfidence: Json := JNumber(0.0)
  const DefaultDisposal: Json := JString("Dispose of carefully.")
  const NoTips: Json := JArray([])

  /** `item.category` can be lower-cased: it is absent, null or a string. */
  predicate CategoryReadable(item: Json)
    requires !item.JNull?
  {
    var c := Member(item, "category");
    c.None? || c.value.JNull? || c.value.JString?
  }

  /**
   * `item.category?.toLowerCase() || ''`: the lower-cased category string,
   * "" when it is absent or null, and a TypeError for any other value.
   */
  function CategoryText(item: Json): (r: Result<string, Cause>)
    requires !item.JNull?
    ensures r.Ok? <==> CategoryReadable(item)
    ensures r.Err? ==> r.error == CategoryNotString
    ensures r.Ok? ==> HasNoUpper(r.value)
    ensures r.Ok? && Member(item, "category").Some? && Member(item, "category").value.JString?
      ==> r.value == ToLower(Member(item, "category").value.s)
    ensures r.Ok? && (Member(item, "category").None? || Member(item, "category").value.JNull?) ==> r.value == ""
  {
    match Member(item, "category")
    case None => Ok("")
    case Some(v) =>
      if v.JNull? then Ok("")
      else if v.JString? then (ToLowerProperties(v.s); Ok(ToLower(v.s)))
      else Err(CategoryNotString)
  }

  /** `field || sentinel` was applied: a truthy raw value is kept, anything else gives the sentinel. */
  predicate Defaulted(raw: Option<Json>, out: Json, sentinel: Json)
  {
    (Truthy(raw) ==> out == raw.value) && (!Truthy(raw) ==> out == sentinel)
  }

  /** The value of a field after defaulting is truthy or is its sentinel. */
  predicate TruthyOr(v: Json, sentinel: Json)
  {
    IsTruthy(v) || v == sentinel
  }

  /** A WasteItem as the normaliser can produce it: each defaulted field truthy or its sentinel. */
  predicate Normalised(w: WasteItem)
  {
    && TruthyOr(w.itemName, UnknownItemName)
    && TruthyOr(w.material, UnknownMaterial)
    && TruthyOr(w.confidence, ZeroConfidence)
    && TruthyOr(w.disposalInstruction, DefaultDisposal)
    && TruthyOr(w.recyclingTips, NoTips)
  }

  /**
   * The callback of `parsed.items.map`: one raw record to one WasteItem.
   * It fails exactly when reading the record throws (a null record, or a
   * category that has no toLowerCase); otherwise every field but funFact is
   * present, each defaulted field is truthy or its sentinel, and the
   * category is the classifier's verdict on the lower-cased category text.
   */
  function NormaliseItem(item: Json): (r: Result<WasteItem, Cause>)
    ensures r.Ok? <==> !item.JNull? && CategoryReadable(item)
    ensures item.JNull? ==> r == Err(NullItem)
    ensures !item.JNull? && !CategoryReadable(item) ==> r == Err(CategoryNotString)
    ensures r.Ok? ==> Normalised(r.value)
    ensures r.Ok? ==> Defaulted(Member(item, "itemName"), r.value.itemName, UnknownItemName)
    ensures r.Ok? ==> Defaulted(Member(item, "material"), r.value.material, UnknownMaterial)
    ensures r.Ok? ==> Defaulted(Member(item, "confidence"), r.value.confidence, ZeroConfidence)
    ensures r.Ok? ==> Defaulted(Member(item, "disposalInstruction"), r.value.disposalInstruction, DefaultDisposal)
    ensures r.Ok? ==> Defaulted(Member(item, "recyclingTips"), r.value.recyclingTips, NoTips)
    ensures r.Ok? ==> r.value.category == Classify(CategoryText(item).value)
    ensures r.Ok? ==> r.value.funFact == Member(item, "funFact")
  {
    if item.JNull? then Err(NullItem)
    else
      match CategoryText(item)
      case Err(e) => Err(e)
      case Ok(catStr) =>
        Ok(WasteItem(
          itemName := OrElse(Member(item, "itemName"), UnknownItemName),
          material := OrElse(Member(item, "material"), UnknownMaterial),
          category := Classify(catStr),
          confidence := OrElse(Member(item, "confidence"), ZeroConfidence),
          disposalInstruction := OrElse(Member(item, "disposalInstruction"), DefaultDisposal),
          recyclingTips := OrElse(Member(item, "recyclingTips"), NoTips),
          funFact := Member(item, "funFact")))
  }

  /** A record with none of the fields (`{}`) becomes the all-defaults item in category Unknown. */
  lemma EmptyRecordIsAllDefaults()
    ensures NormaliseItem(JObject(map[])) ==
      Ok(WasteItem(UnknownItemName, UnknownMaterial, Unknown, ZeroConfidence, DefaultDisposal, NoTips, None))
  {
    EmptyCategoryIsUnknown();
  }

  /** A record that follows the schema of the prompt, with a string category. */
  predicate MatchesSchema(item: Json)
  {
    && item.JObject?
    && (forall key :: key in {"itemName", "material", "category", "disposalInstruction"} ==>
          key in item.fields && item.fields[key].JString?)
    && "confidence" in item.fields && item.fields["confidence"].JNumber?
    && "recyclingTips" in item.fields && IsStringArray(item.fields["recyclingTips"])
    && ("funFact" in item.fields ==> item.fields["funFact"].JString?)
  }

  /** A record that follows the schema normalises, and its result has the shape types.ts declares. */
  lemma SchemaRecordIsWellTyped(item: Json)
    requires MatchesSchema(item)
    ensures NormaliseItem(item).Ok? && WellTyped(NormaliseItem(item).value)
  {
    assert "category" in {"itemName", "material", "category", "disposalInstruction"};
    assert "itemName" in {"itemName", "material", "category", "disposalInstruction"};
    assert "material" in {"itemName", "material", "category", "disposalInstruction"};
    assert "disposalInstruction" in {"itemName", "material", "category", "disposalInstruction"};
  }

  /** A WasteItem written back out as a JSON record, with its category as the enum's string value. */
  function EncodeItem(w: WasteItem): (v: Json)
    ensures v.JObject? && "category" in v.fields && v.fields["category"] == JString(Label(w.category))
    ensures "funFact" in v.fields <==> w.funFact.Some?
  {
    var fields := map[
      "itemName" := w.itemName,
      "material" := w.material,
      "category" := JString(Label(w.category)),
      "confidence" := w.confidence,
      "disposalInstruction" := w.disposalInstruction,
      "recyclingTips" := w.recyclingTips];
    JObject(if w.funFact.Some? then fields["funFact" := w.funFact.value] else fields)
  }

  /**
   * Normalising is idempotent: an item the normaliser can produce, written
   * back out with its category label, normalises to itself.
   */
  lemma NormaliseEncodeRoundTrip(w: WasteItem)
    requires Normalised(w)
    ensures NormaliseItem(EncodeItem(w)) == Ok(w)
  {
    var v := EncodeItem(w);
    assert Member(v, "category") == Some(JString(Label(w.category)));
    LabelClassifiesToItself(w.category);
    assert Member(v, "itemName") == Some(w.itemName);
    assert Member(v, "material") == Some(w.material);
    assert Member(v, "confidence") == Some(w.confidence);
    assert Member(v, "disposalInstruction") == Some(w.disposalInstruction);
    assert Member(v, "recyclingTips") == Some(w.recyclingTips);
    assert Member(v, "funFact") == w.funFact;
  }

  /** So normalising a normalised record once more changes nothing. */
  lemma NormaliseIdempotent(item: Json)
    requires NormaliseItem(item).Ok?
    ensures NormaliseItem(EncodeItem(NormaliseItem(item).value)) == NormaliseItem(item)
  {
    NormaliseEncodeRoundTrip(NormaliseItem(item).value);
  }

  /**
   * `parsed.items.map(...)`: every record normalised in order. The map
   * stops at the first record that throws, so the call fails exactly when
   * some record fails, and a success is one item per record in order.
   */
  function NormaliseAll(items: seq<Json>): (r: Result<seq<WasteItem>, Cause>)
    ensures r.Ok? <==> forall k :: 0 <= k < |items| ==> NormaliseItem(items[k]).Ok?
    ensures r.Ok? ==> |r.value| == |items|
    ensures r.Ok? ==> forall k :: 0 <= k < |items| ==> NormaliseItem(items[k]) == Ok(r.value[k])
    ensures r.Err? ==> exists k :: 0 <= k < |items| && NormaliseItem(items[k]) == Err(r.error)
    decreases |items|
  {
    if items == [] then Ok([])
    else
      match NormaliseItem(items[0])
      case Err(e) => Err(e)
      case Ok(w) =>
        var rest := NormaliseAll(items[1..]);
        if rest.Err? then
          (assert forall k :: 0 <= k < |items[1..]| ==> items[1..][k] == items[k + 1];
           Err(rest.error))
        else Ok([w] + rest.value)
  }

  // ---------------------------------------------------------------------
  // Locating the items (lines 59-68)
  // ---------------------------------------------------------------------

  /**
   * The records to normalise: the `items` array when there is one (even an
   * empty one), otherwise the parsed value itself when it has a truthy
   * itemName, otherwise a failure. `parsed.items = [parsed]` is read as
   * "the list holding the parsed record"; the field it adds is never read
   * by the normaliser.
   */
  function LocateItems(parsed: Json): (r: Result<seq<Json>, Cause>)
    ensures parsed.JNull? ==> r == Err(NullRoot)
    ensures !parsed.JNull? && IsArray(Member(parsed, "items")) ==> r == Ok(Member(parsed, "items").value.elems)
    ensures !parsed.JNull? && !IsArray(Member(parsed, "items")) && Truthy(Member(parsed, "itemName"))
      ==> r == Ok([parsed])
    ensures r.Err? <==> parsed.JNull? || (!IsArray(Member(parsed, "items")) && !Truthy(Member(parsed, "itemName")))
  {
    if parsed.JNull? then Err(NullRoot)
    else
      var items := Member(parsed, "items");
      ArraysAreTruthy(items);
      if Truthy(items) && IsArray(items) then Ok(items.value.elems)
      else if Truthy(Member(parsed, "itemName")) then Ok([parsed])
      else Err(InvalidStructure)
  }

  /** A bare record wrapped as the only item is an object with a truthy itemName. */
  lemma WrappedRecordIsNamedObject(parsed: Json)
    requires LocateItems(parsed).Ok? && !IsArray(Member(parsed, "items"))
    ensures LocateItems(parsed) == Ok([parsed])
    ensures parsed.JObject? && "itemName" in parsed.fields && IsTruthy(parsed.fields["itemName"])
  {
  }

  // ---------------------------------------------------------------------
  // The whole call (lines 35-97)
  // ---------------------------------------------------------------------

  const ModelId: string := "gemini-3-flash-preview"
  const ImageMimeType: string := "image/jpeg"
  const FailureMessage: string := "Failed to analyze the image. Please try again."

  /** What is sent to the model: the model id and one inline image part (the prompt text is left out). */
  datatype Request = Request(model: string, mimeType: string, data: string)

  /** What comes back: a response whose `text` may be undefined, or a thrown error. */
  datatype Response = Generated(text: Option<string>) | Rejected

  /** The strip removes exactly the prefix the regular expression matches, and nothing when it does not match. */
  lemma StripFollowsPattern(s: string)
    ensures forall k :: DataUriPrefixEndsAt(s, k) ==> StripDataUriPrefix(s) == s[k..]
    ensures (forall k :: !DataUriPrefixEndsAt(s, k)) ==> StripDataUriPrefix(s) == s
  {
    forall k | DataUriPrefixEndsAt(s, k)
      ensures StripDataUriPrefix(s) == s[k..]
    {
      StripRemovesMatch(s, k);
    }
    if forall k :: !DataUriPrefixEndsAt(s, k) {
      StripKeepsUnmatched(s);
    }
  }

  /** The request for an image: the header-free base64 payload, declared as JPEG. */
  function RequestFor(base64Image: string): (q: Request)
    ensures q.model == ModelId && q.mimeType == ImageMimeType
    ensures forall k :: DataUriPrefixEndsAt(base64Image, k) ==> q.data == base64Image[k..]
    ensures (forall k :: !DataUriPrefixEndsAt(base64Image, k)) ==> q.data == base64Image
  {
    StripFollowsPattern(base64Image);
    Request(ModelId, ImageMimeType, StripDataUriPrefix(base64Image))
  }

  /** Everything after the model call: clean, parse, locate, normalise. */
  function NormaliseResponse(text: Option<string>, parse: string -> Option<Json>): (r: Result<seq<WasteItem>, Cause>)
    ensures parse(CleanFences(ResponseText(text))).None? ==> r == Err(MalformedJson)
    ensures r.Ok? ==> forall k :: 0 <= k < |r.value| ==> Normalised(r.value[k])
  {
    match parse(CleanFences(ResponseText(text)))
    case None => Err(MalformedJson)
    case Some(parsed) =>
      match LocateItems(parsed)
      case Err(e) => Err(e)
      case Ok(raw) => NormaliseAll(raw)
  }

  /** The call with its failure cause kept. */
  function Analysis(base64Image: string, generate: Request -> Response, parse: string -> Option<Json>)
    : Result<seq<WasteItem>, Cause>
  {
    match generate(RequestFor(base64Image))
    case Rejected => Err(UpstreamFailed)
    case Generated(text) => NormaliseResponse(text, parse)
  }

  /**
   * `analyzeWasteImage`: the items on success; on any failure, whatever its
   * cause, the one fixed message and no items at all.
   */
  function AnalyzeWasteImage(base64Image: string, generate: Request -> Response, parse: string -> Option<Json>)
    : (r: Result<seq<WasteItem>, string>)
    ensures r.Ok? <==> Analysis(base64Image, generate, parse).Ok?
    ensures r.Ok? ==> r.value == Analysis(base64Image, generate, parse).value
    ensures r.Err? ==> r.error == FailureMessage
  {
    var outcome := Analysis(base64Image, generate, parse);
    if outcome.Ok? then Ok(outcome.value) else Err(FailureMessage)
  }

  /** The empty-object text survives cleaning. */
  lemma CleanEmptyObject()
    ensures CleanFences(EmptyObjectText) == EmptyObjectText
  {
    assert '`' !in EmptyObjectText;
    CleanFencesKeepsPlainText(EmptyObjectText);
  }

  /** A failed model call fails the whole call. */
  lemma RejectedCallFails(img: string, generate: Request -> Response, parse: string -> Option<Json>)
    requires generate(RequestFor(img)) == Rejected
    ensures AnalyzeWasteImage(img, generate, parse) == Err(FailureMessage)
  {
  }

  /** Text that does not parse fails the whole call. */
  lemma UnparseableTextFails(img: string, generate: Request -> Response, parse: string -> Option<Json>, text: Option<string>)
    requires generate(RequestFor(img)) == Generated(text)
    requires parse(CleanFences(ResponseText(text))) == None
    ensures AnalyzeWasteImage(img, generate, parse) == Err(FailureMessage)
  {
  }

  /**
   * Missing or empty text becomes "{}", whose parse has neither items nor
   * itemName, so the call fails rather than returning no items.
   */
  lemma MissingTextFails(img: string, generate: Request -> Response, parse: string -> Option<Json>)
    requires generate(RequestFor(img)) == Generated(None) || generate(RequestFor(img)) == Generated(Some(""))
    requires parse(EmptyObjectText) == Some(JObject(map[]))
    ensures Analysis(img, generate, parse) == Err(InvalidStructure)
    ensures AnalyzeWasteImage(img, generate, parse) == Err(FailureMessage)
  {
    CleanEmptyObject();
  }

  /** A response that parses to a value with neither an items array nor a truthy itemName fails. */
  lemma NoItemsNoNameFails(img: string, generate: Request -> Response, parse: string -> Option<Json>,
                           text: Option<string>, parsed: Json)
    requires generate(RequestFor(img)) == Generated(text)
    requires parse(CleanFences(ResponseText(text))) == Some(parsed)
    requires parsed.JNull? || (!IsArray(Member(parsed, "items")) && !Truthy(Member(parsed, "itemName")))
    ensures AnalyzeWasteImage(img, generate, parse) == Err(FailureMessage)
  {
  }

  /**
   * A response whose `items` is an array is mapped record by record: the
   * call succeeds exactly when every record normalises, and then yields one
   * item per record, in order (an empty array yields no items).
   */
  lemma ItemsArrayIsMapped(img: string, generate: Request -> Response, parse: string -> Option<Json>,
                           text: Option<string>, fields: map<string, Json>, elems: seq<Json>)
    requires generate(RequestFor(img)) == Generated(text)
    requires parse(CleanFences(ResponseText(text))) == Some(JObject(fields))
    requires "items" in fields && fields["items"] == JArray(elems)
    ensures AnalyzeWasteImage(img, generate, parse).Ok? <==> forall k :: 0 <= k < |elems| ==> NormaliseItem(elems[k]).Ok?
    ensures AnalyzeWasteImage(img, generate, parse).Ok? ==>
      |AnalyzeWasteImage(img, generate, parse).value| == |elems| &&
      forall k :: 0 <= k < |elems| ==> NormaliseItem(elems[k]) == Ok(AnalyzeWasteImage(img, generate, parse).value[k])
  {
    assert Member(JObject(fields), "items") == Some(JArray(elems));
  }

  /** An explicit empty items array is a success with no items. */
  lemma EmptyItemsArraySucceeds(img: string, generate: Request -> Response, parse: string -> Option<Json>,
                                text: Option<string>, fields: map<string, Json>)
    requires generate(RequestFor(img)) == Generated(text)
    requires parse(CleanFences(ResponseText(text))) == Some(JObject(fields))
    requires "items" in fields && fields["items"] == JArray([])
    ensures AnalyzeWasteImage(img, generate, parse) == Ok([])
  {
    assert Member(JObject(fields), "items") == Some(JArray([]));
  }

  /** A single record with a truthy itemName and no items array is analysed as a one-item list. */
  lemma BareRecordIsWrapped(img: string, generate: Request -> Response, parse: string -> Option<Json>,
                            text: Option<string>, fields: map<string, Json>)
    requires generate(RequestFor(img)) == Generated(text)
    requires parse(CleanFences(ResponseText(text))) == Some(JObject(fields))
    requires !("items" in fields && fields["items"].JArray?)
    requires "itemName" in fields && IsTruthy(fields["itemName"])
    ensures Analysis(img, generate, parse) == NormaliseAll([JObject(fields)])
    ensures NormaliseItem(JObject(fields)).Ok? ==>
      AnalyzeWasteImage(img, generate, parse) == Ok([NormaliseItem(JObject(fields)).value])
  {
    assert LocateItems(JObject(fields)) == Ok([JObject(fields)]);
    var r := NormaliseAll([JObject(fields)]);
    if r.Ok? {
      assert r.value == [r.value[0]];
    }
  }

  /**
   * A payload wrapped in a ```json code block is analysed exactly like the
   * bare payload.
   */
  lemma FencedPayloadSameAsBare(s: string, parse: string -> Option<Json>)
    requires '`' !in s && IsTrimmed(s) && s != ""
    ensures NormaliseResponse(Some(JsonFence + "\n" + s + "\n" + Fence), parse) == NormaliseResponse(Some(s), parse)
  {
    CleanFencesUnwrapsBlock(s);
    CleanFencesKeepsPlainText(s);
  }
}
