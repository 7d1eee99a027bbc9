/**
 * What the router promises: priority of the categories, the fallback,
 * the keywords named in the reason, and how letter case is treated.
 */
module RouterProperties {
  import opened CaseText
  import opened Router

  /** A travel keyword in the question always wins, whatever the other rules hold. */
  lemma TravelExactlyWhen(question: string, rules: Rules)
    ensures Analyze(question, rules).category == Travel <==> Mentions(rules.travel.keywords, Lower(question))
    ensures Analyze(question, rules).category == Travel ==> Analyze(question, rules).model == rules.travel.useModel
  {
  }

  /** Coding is chosen exactly when no travel keyword and some coding keyword occurs. */
  lemma CodingExactlyWhen(question: string, rules: Rules)
    ensures Analyze(question, rules).category == Coding <==>
      !Mentions(rules.travel.keywords, Lower(question)) && Mentions(rules.coding.keywords, Lower(question))
    ensures Analyze(question, rules).category == Coding ==> Analyze(question, rules).model == rules.coding.useModel
  {
  }

  /** General is chosen exactly when only a general keyword occurs. */
  lemma GeneralExactlyWhen(question: string, rules: Rules)
    ensures Analyze(question, rules).category == General <==>
      && !Mentions(rules.travel.keywords, Lower(question))
      && !Mentions(rules.coding.keywords, Lower(question))
      && Mentions(rules.general.keywords, Lower(question))
    ensures Analyze(question, rules).category == General ==> Analyze(question, rules).model == rules.general.useModel
  {
  }

  /** With no keyword of any rule in the question, the fixed default selection is returned. */
  lemma DefaultExactlyWhen(question: string, rules: Rules)
    ensures Analyze(question, rules).category == Default <==>
      && !Mentions(rules.travel.keywords, Lower(question))
      && !Mentions(rules.coding.keywords, Lower(question))
      && !Mentions(rules.general.keywords, Lower(question))
    ensures Analyze(question, rules).category == Default ==>
      Analyze(question, rules) == Selection("phi-fast:latest",
        NoKeywords("No specific keywords detected, using default general model"), Default)
  {
  }

  /**
   * A keyword of the travel rule found in the question regardless of letter
   * case routes to travel, provided the keyword itself is lower-case.
   */
  lemma TravelWinsAnyCase(question: string, rules: Rules, k: string, i: nat)
    requires k in rules.travel.keywords && IsLowerText(k)
    requires CaseInsensitiveAt(question, k, i)
    ensures Analyze(question, rules).category == Travel
    ensures Analyze(question, rules).model == rules.travel.useModel
  {
    LowerKeyMatchesAnyCase(question, k);
    TravelExactlyWhen(question, rules);
  }

  /**
   * The reason of a matched category names exactly the keywords of that
   * category occurring in the lower-cased question, in configuration order
   * (the filter of `MatchedKeywordsAppend`), with the multiplicity the
   * configuration gives them, and at least one.
   */
  lemma ReasonListsMatchedKeywords(question: string, rules: Rules)
    ensures var s := Analyze(question, rules);
      s.category != Default ==>
        && s.reason.Detected?
        && s.reason.keywords == MatchedKeywords(RuleFor(rules, s.category).keywords, Lower(question))
        && s.reason.keywords != []
        && forall k :: multiset(s.reason.keywords)[k] ==
             if Contains(Lower(question), k) then multiset(RuleFor(rules, s.category).keywords)[k] else 0
  {
    var s := Analyze(question, rules);
    if s.category != Default {
      MatchedKeywordsCount(RuleFor(rules, s.category).keywords, Lower(question));
    }
  }

  /**
   * The filter keeps every occurring keyword as often as the configuration
   * lists it, and drops every other keyword.
   */
  lemma {:induction false} MatchedKeywordsCount(keywords: seq<string>, text: string)
    ensures forall k :: multiset(MatchedKeywords(keywords, text))[k] ==
                        (if Contains(text, k) then multiset(keywords)[k] else 0)
  {
    if keywords != [] {
      MatchedKeywordsCount(keywords[1..], text);
      assert keywords == [keywords[0]] + keywords[1..];
    }
  }

  /** The reason never names a keyword holding an upper-case letter. */
  lemma ReasonKeywordsAreLower(question: string, rules: Rules)
    ensures var s := Analyze(question, rules);
      s.reason.Detected? ==> forall k :: k in s.reason.keywords ==> IsLowerText(k)
  {
    var s := Analyze(question, rules);
    if s.reason.Detected? {
      forall k | k in s.reason.keywords ensures IsLowerText(k) {
        assert multiset(s.reason.keywords)[k] > 0;
        assert Contains(Lower(question), k);
        if !IsLowerText(k) {
          var j :| 0 <= j < |k| && IsUpperChar(k[j]);
          UpperKeyNeverInLowered(question, k, j);
        }
      }
    }
  }

  /**
   * The keyword filter keeps configuration order: filtering a concatenation
   * is concatenating the filtered parts.
   */
  lemma {:induction false} MatchedKeywordsAppend(a: seq<string>, b: seq<string>, text: string)
    ensures MatchedKeywords(a + b, text) == MatchedKeywords(a, text) + MatchedKeywords(b, text)
  {
    if a == [] {
      assert a + b == b;
    } else {
      var head := if Contains(text, a[0]) then [a[0]] else [];
      calc {
        MatchedKeywords(a + b, text);
        { assert (a + b)[0] == a[0] && (a + b)[1..] == a[1..] + b; }
        head + MatchedKeywords(a[1..] + b, text);
        { MatchedKeywordsAppend(a[1..], b, text); }
        head + (MatchedKeywords(a[1..], text) + MatchedKeywords(b, text));
        (head + MatchedKeywords(a[1..], text)) + MatchedKeywords(b, text);
        MatchedKeywords(a, text) + MatchedKeywords(b, text);
      }
    }
  }

  /** The selection depends on the question only through its lower-cased form. */
  lemma AnalyzeSeesOnlyLowered(question: string, rules: Rules)
    ensures Analyze(Lower(question), rules) == Analyze(question, rules)
  {
    LowerIdempotent(question);
  }

  /** The four category strings a selection can carry are pairwise different. */
  lemma CategoryNamesDistinct(c: Category, d: Category)
    ensures c.Name() == d.Name() <==> c == d
  {
  }

  /** Where the two keywords of the example below occur in its question. */
  lemma TripToParisOccurrences(q: string)
    requires q == "best trip to paris"
    ensures Lower(q) == q
    ensures Contains(q, "paris") && Contains(q, "trip")
  {
    LowerOfLowerText(q);
    assert q[13..18] == "paris";
    assert q[5..9] == "trip";
    assert OccursAt(q, "paris", 13);
    assert OccursAt(q, "trip", 5);
  }

  /** Two keywords of the travel rule both found are both listed, in configuration order. */
  lemma ExampleTripToParis(q: string, coding: Rule, general: Rule)
    requires q == "best trip to paris"
    ensures var rules := Rules(Rule(["paris", "trip"], "travel-model:latest"), coding, general);
      var s := Analyze(q, rules);
      && s.category == Travel
      && s.model == "travel-model:latest"
      && s.reason == Detected("Detected travel keywords: ", ["paris", "trip"])
  {
    var keys := ["paris", "trip"];
    TripToParisOccurrences(q);
    assert MatchedKeywords(keys[1..], q) == ["trip"];
    assert MatchedKeywords(keys, q) == keys;
    assert AnyMatch(keys, q);
  }

  /** An upper-case question still matches a lower-case keyword. */
  lemma ExampleUpperCaseQuestion(coding: Rule, general: Rule)
    ensures var rules := Rules(Rule(["paris"], "travel-model:latest"), coding, general);
      Analyze("PARIS is lovely", rules).category == Travel
  {
    var rules := Rules(Rule(["paris"], "travel-model:latest"), coding, general);
    assert CaseInsensitiveAt("PARIS is lovely", "paris", 0);
    TravelWinsAnyCase("PARIS is lovely", rules, "paris", 0);
  }
}
