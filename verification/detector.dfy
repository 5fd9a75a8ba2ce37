/** The platform detector: an ordered, first-match classifier of URLs. */
module Detector {
  import opened Text

  /** The eleven identifiers the detector can return. */
  const Platforms: set<string> := {
    "youtube", "facebook", "instagram", "twitter", "tiktok", "linkedin",
    "vimeo", "dailymotion", "sharechat", "roposo", "unknown"
  }

  /**
   * `detect(url)`: lower-case the input, then return the platform of the first
   * rule one of whose domain literals occurs in it, or "unknown".
   */
  function Detect(url: string): (r: string)
    ensures r in Platforms
  {
    Classify(Lower(url))
  }

  /** The rule chain of `detect`, applied to the already lower-cased URL `u`. */
  function Classify(u: string): (r: string)
    ensures r in Platforms
  {
    if Contains(u, "youtu.be") || Contains(u, "youtube.com") then "youtube"
    else if Contains(u, "facebook.com") then "facebook"
    else if Contains(u, "instagram.com") then "instagram"
    else if Contains(u, "twitter.com") || Contains(u, "x.com") then "twitter"
    else if Contains(u, "tiktok.com") then "tiktok"
    else if Contains(u, "linkedin.com") then "linkedin"
    else if Contains(u, "vimeo.com") then "vimeo"
    else if Contains(u, "dai.ly") || Contains(u, "dailymotion.com") then "dailymotion"
    else if Contains(u, "sharechat.com") then "sharechat"
    else if Contains(u, "roposo.com") then "roposo"
    else "unknown"
  }

  // A table-driven reference definition of the same classifier.

  /** One detection rule: the platform named when any of the literals occurs. */
  datatype Rule = Rule(literals: seq<string>, platform: string)

  /** The rules in order of precedence. */
  const Rules: seq<Rule> := [
    Rule(["youtu.be", "youtube.com"], "youtube"),
    Rule(["facebook.com"], "facebook"),
    Rule(["instagram.com"], "instagram"),
    Rule(["twitter.com", "x.com"], "twitter"),
    Rule(["tiktok.com"], "tiktok"),
    Rule(["linkedin.com"], "linkedin"),
    Rule(["vimeo.com"], "vimeo"),
    Rule(["dai.ly", "dailymotion.com"], "dailymotion"),
    Rule(["sharechat.com"], "sharechat"),
    Rule(["roposo.com"], "roposo")
  ]

  /** The thirteen domain literals of all the rules, in order. */
  const Literals: seq<string> := [
    "youtu.be", "youtube.com", "facebook.com", "instagram.com", "twitter.com",
    "x.com", "tiktok.com", "linkedin.com", "vimeo.com", "dai.ly",
    "dailymotion.com", "sharechat.com", "roposo.com"
  ]

  /** Some literal of the list occurs in `u`. */
  predicate AnyOccurs(u: string, literals: seq<string>) {
    literals != [] && (Contains(u, literals[0]) || AnyOccurs(u, literals[1..]))
  }

  lemma AnyOccursOne(u: string, a: string)
    ensures AnyOccurs(u, [a]) <==> Contains(u, a)
  {
    assert [a][1..] == [];
  }

  lemma AnyOccursTwo(u: string, a: string, b: string)
    ensures AnyOccurs(u, [a, b]) <==> Contains(u, a) || Contains(u, b)
  {
    assert [a, b][1..] == [b];
    AnyOccursOne(u, b);
  }

  predicate Matches(rule: Rule, u: string) {
    AnyOccurs(u, rule.literals)
  }

  /** The platform of the first rule at or after index `i` that matches, "unknown" when none does. */
  function FirstMatchFrom(rules: seq<Rule>, u: string, i: nat): string
    decreases |rules| - i
  {
    if i >= |rules| then "unknown"
    else if Matches(rules[i], u) then rules[i].platform
    else FirstMatchFrom(rules, u, i + 1)
  }

  /** The platform of the first matching rule, "unknown" when none matches. */
  function FirstMatch(rules: seq<Rule>, u: string): string {
    FirstMatchFrom(rules, u, 0)
  }

  /** The first-match search names the earliest matching rule. */
  lemma FirstMatchEarliest(rules: seq<Rule>, u: string, k: nat)
    requires k < |rules| && Matches(rules[k], u)
    requires forall j :: 0 <= j < k ==> !Matches(rules[j], u)
    ensures FirstMatch(rules, u) == rules[k].platform
  {
    FirstMatchFromEarliest(rules, u, 0, k);
  }

  lemma {:induction false} FirstMatchFromEarliest(rules: seq<Rule>, u: string, i: nat, k: nat)
    requires i <= k < |rules| && Matches(rules[k], u)
    requires forall j :: i <= j < k ==> !Matches(rules[j], u)
    ensures FirstMatchFrom(rules, u, i) == rules[k].platform
    decreases k - i
  {
    if i < k {
      FirstMatchFromEarliest(rules, u, i + 1, k);
    }
  }

  /** The first-match search gives "unknown" when no rule matches. */
  lemma FirstMatchNone(rules: seq<Rule>, u: string)
    requires forall j :: 0 <= j < |rules| ==> !Matches(rules[j], u)
    ensures FirstMatch(rules, u) == "unknown"
  {
    FirstMatchFromNone(rules, u, 0);
  }

  lemma {:induction false} FirstMatchFromNone(rules: seq<Rule>, u: string, i: nat)
    requires forall j :: i <= j < |rules| ==> !Matches(rules[j], u)
    ensures FirstMatchFrom(rules, u, i) == "unknown"
    decreases |rules| - i
  {
    if i < |rules| {
      FirstMatchFromNone(rules, u, i + 1);
    }
  }

  /** What each rule of the table tests, spelled out. */
  lemma RuleMatches(u: string)
    ensures Matches(Rules[0], u) <==> Contains(u, "youtu.be") || Contains(u, "youtube.com")
    ensures Matches(Rules[1], u) <==> Contains(u, "facebook.com")
    ensures Matches(Rules[2], u) <==> Contains(u, "instagram.com")
    ensures Matches(Rules[3], u) <==> Contains(u, "twitter.com") || Contains(u, "x.com")
    ensures Matches(Rules[4], u) <==> Contains(u, "tiktok.com")
    ensures Matches(Rules[5], u) <==> Contains(u, "linkedin.com")
    ensures Matches(Rules[6], u) <==> Contains(u, "vimeo.com")
    ensures Matches(Rules[7], u) <==> Contains(u, "dai.ly") || Contains(u, "dailymotion.com")
    ensures Matches(Rules[8], u) <==> Contains(u, "sharechat.com")
    ensures Matches(Rules[9], u) <==> Contains(u, "roposo.com")
  {
    AnyOccursTwo(u, "youtu.be", "youtube.com");
    AnyOccursTwo(u, "twitter.com", "x.com");
    AnyOccursTwo(u, "dai.ly", "dailymotion.com");
    AnyOccursOne(u, "facebook.com");
    AnyOccursOne(u, "instagram.com");
    AnyOccursOne(u, "tiktok.com");
    AnyOccursOne(u, "linkedin.com");
    AnyOccursOne(u, "vimeo.com");
    AnyOccursOne(u, "sharechat.com");
    AnyOccursOne(u, "roposo.com");
  }

  /** The if-chain of `detect` is the first-match search over the rule table. */
  lemma DetectIsFirstMatch(url: string)
    ensures Detect(url) == FirstMatch(Rules, Lower(url))
  {
    var u, r := Lower(url), Rules;
    RuleMatches(u);
    assert |r| == 10;
    assert FirstMatchFrom(r, u, 0) == if Matches(r[0], u) then r[0].platform else FirstMatchFrom(r, u, 1);
    assert FirstMatchFrom(r, u, 1) == if Matches(r[1], u) then r[1].platform else FirstMatchFrom(r, u, 2);
    assert FirstMatchFrom(r, u, 2) == if Matches(r[2], u) then r[2].platform else FirstMatchFrom(r, u, 3);
    assert FirstMatchFrom(r, u, 3) == if Matches(r[3], u) then r[3].platform else FirstMatchFrom(r, u, 4);
    assert FirstMatchFrom(r, u, 4) == if Matches(r[4], u) then r[4].platform else FirstMatchFrom(r, u, 5);
    assert FirstMatchFrom(r, u, 5) == if Matches(r[5], u) then r[5].platform else FirstMatchFrom(r, u, 6);
    assert FirstMatchFrom(r, u, 6) == if Matches(r[6], u) then r[6].platform else FirstMatchFrom(r, u, 7);
    assert FirstMatchFrom(r, u, 7) == if Matches(r[7], u) then r[7].platform else FirstMatchFrom(r, u, 8);
    assert FirstMatchFrom(r, u, 8) == if Matches(r[8], u) then r[8].platform else FirstMatchFrom(r, u, 9);
    assert FirstMatchFrom(r, u, 9) == if Matches(r[9], u) then r[9].platform else FirstMatchFrom(r, u, 10);
    assert FirstMatchFrom(r, u, 10) == "unknown";
  }

  /** First-match precedence: `detect` names the earliest rule with a literal in the lower-cased URL. */
  lemma DetectPrecedence(url: string, k: nat)
    requires k < |Rules| && Matches(Rules[k], Lower(url))
    requires forall j :: 0 <= j < k ==> !Matches(Rules[j], Lower(url))
    ensures Detect(url) == Rules[k].platform
  {
    DetectIsFirstMatch(url);
    FirstMatchEarliest(Rules, Lower(url), k);
  }

  /** `detect` gives "unknown" exactly when none of the thirteen literals occurs. */
  lemma DetectUnknownIff(url: string)
    ensures Detect(url) == "unknown" <==>
            forall i :: 0 <= i < |Literals| ==> !Contains(Lower(url), Literals[i])
  {
    var u := Lower(url);
    if forall i :: 0 <= i < |Literals| ==> !Contains(u, Literals[i]) {
      assert !Contains(u, Literals[0]);
      assert !Contains(u, Literals[1]);
      assert !Contains(u, Literals[2]);
      assert !Contains(u, Literals[3]);
      assert !Contains(u, Literals[4]);
      assert !Contains(u, Literals[5]);
      assert !Contains(u, Literals[6]);
      assert !Contains(u, Literals[7]);
      assert !Contains(u, Literals[8]);
      assert !Contains(u, Literals[9]);
      assert !Contains(u, Literals[10]);
      assert !Contains(u, Literals[11]);
      assert !Contains(u, Literals[12]);
    } else {
      var i :| 0 <= i < |Literals| && Contains(u, Literals[i]);
      assert Literals[i] in {"youtu.be", "youtube.com", "facebook.com", "instagram.com", "twitter.com", "x.com", "tiktok.com", "linkedin.com", "vimeo.com", "dai.ly", "dailymotion.com", "sharechat.com", "roposo.com"};
    }
  }

  /** `detect` ignores the case of ASCII letters. */
  lemma DetectIgnoresCase(s: string, t: string)
    requires EqualIgnoringCase(s, t)
    ensures Detect(s) == Detect(t)
  {
    LowerEqualIff(s, t);
  }

  /** In particular lower- or upper-casing the URL first changes nothing. */
  lemma DetectOfLowerAndUpper(s: string)
    ensures Detect(Lower(s)) == Detect(s)
    ensures Detect(Upper(s)) == Detect(s)
  {
    LowerIdempotent(s);
    UpperEqualIgnoringCase(s);
    DetectIgnoresCase(Upper(s), s);
  }

  /** A short-link URL is classified as YouTube. */
  lemma DetectShortLink(url: string)
    requires url == "https://youtu.be/xyz"
    ensures Detect(url) == "youtube"
  {
    assert Lower(url) == url by { LowerOfLowerCase(url); }
    assert Contains(url, "youtu.be") by {
      assert OccursAt(url, "youtu.be", 8);
      OccursAtContains(url, "youtu.be", 8);
    }
  }

  lemma UpperCaseHostLowered(url: string)
    requires url == "https://YOUTUBE.com/watch"
    ensures Contains(Lower(url), "youtube.com")
  {
    var u := Lower(url);
    assert u[8] == 'y' && u[9] == 'o' && u[10] == 'u' && u[11] == 't' && u[12] == 'u' && u[13] == 'b';
    assert u[14] == 'e' && u[15] == '.' && u[16] == 'c' && u[17] == 'o' && u[18] == 'm';
    assert u[8..19] == "youtube.com";
    OccursAtContains(u, "youtube.com", 8);
  }

  /** Upper-case letters in the host do not hide the platform. */
  lemma DetectUpperCaseHost(url: string)
    requires url == "https://YOUTUBE.com/watch"
    ensures Detect(url) == "youtube"
  {
    UpperCaseHostLowered(url);
  }

  /**
   * Every literal but `x.com` has one of the letters y, f, i, w, k, v, d, r; so
   * a lower-cased URL without those letters and without an 'x' before a dot
   * matches no rule.
   */
  predicate LacksRuleLetters(u: string) {
    && 'y' !in u && 'f' !in u && 'i' !in u && 'w' !in u
    && 'k' !in u && 'v' !in u && 'd' !in u && 'r' !in u
    && forall i :: 0 <= i < |u| - 1 ==> u[i] != 'x' || u[i + 1] != '.'
  }

  lemma DetectWithoutRuleLetters(url: string)
    requires LacksRuleLetters(Lower(url))
    ensures Detect(url) == "unknown"
  {
    var u := Lower(url);
    NotContainsWithoutPair(u, "x.com");
    NotContainsWithoutChar(u, "youtu.be", 'y');
    NotContainsWithoutChar(u, "youtube.com", 'y');
    NotContainsWithoutChar(u, "facebook.com", 'f');
    NotContainsWithoutChar(u, "instagram.com", 'i');
    NotContainsWithoutChar(u, "twitter.com", 'w');
    NotContainsWithoutChar(u, "tiktok.com", 'k');
    NotContainsWithoutChar(u, "linkedin.com", 'k');
    NotContainsWithoutChar(u, "vimeo.com", 'v');
    NotContainsWithoutChar(u, "dai.ly", 'd');
    NotContainsWithoutChar(u, "dailymotion.com", 'd');
    NotContainsWithoutChar(u, "sharechat.com", 'r');
    NotContainsWithoutChar(u, "roposo.com", 'r');
  }

  /** A lower-cased URL with `x.com` and without the letters y, f, i, w is classified as Twitter. */
  predicate OnlyXComRuleApplies(u: string) {
    'y' !in u && 'f' !in u && 'i' !in u && 'w' !in u && Contains(u, "x.com")
  }

  lemma DetectXCom(url: string)
    requires OnlyXComRuleApplies(Lower(url))
    ensures Detect(url) == "twitter"
  {
    var u := Lower(url);
    NotContainsWithoutChar(u, "youtu.be", 'y');
    NotContainsWithoutChar(u, "youtube.com", 'y');
    NotContainsWithoutChar(u, "facebook.com", 'f');
    NotContainsWithoutChar(u, "instagram.com", 'i');
    NotContainsWithoutChar(u, "twitter.com", 'w');
  }

  lemma ExampleComLacksRuleLetters(url: string)
    requires url == "https://example.com"
    ensures LacksRuleLetters(url)
  {
    forall i | 0 <= i < |url| - 1 ensures url[i] != 'x' || url[i + 1] != '.' {
      assert i in {0, 1, 2, 3, 4, 5, 6, 7, 8, 9, 10, 11, 12, 13, 14, 15, 16, 17};
    }
  }

  lemma DropboxOnlyMatchesXCom(url: string)
    requires url == "https://dropbox.com/s"
    ensures OnlyXComRuleApplies(url)
  {
    assert OccursAt(url, "x.com", 14);
    OccursAtContains(url, "x.com", 14);
  }

  /** A host none of whose rules apply is "unknown". */
  lemma DetectUnlistedHost(url: string)
    requires url == "https://example.com"
    ensures Detect(url) == "unknown"
  {
    LowerOfLowerCase(url);
    ExampleComLacksRuleLetters(url);
    DetectWithoutRuleLetters(url);
  }

  /** The `x.com` literal also fires inside another domain name that ends in it. */
  lemma DetectXComInsideOtherDomain(url: string)
    requires url == "https://dropbox.com/s"
    ensures Detect(url) == "twitter"
  {
    LowerOfLowerCase(url);
    DropboxOnlyMatchesXCom(url);
    DetectXCom(url);
  }
}
