/**
Steps 2 to 4 of the stemmer pick a group of rules by one letter of the word and take the
first rule of the group that matches. Here that is shown to be the longest match of the
whole table.
*/
module PorterDispatch {
  import opened Options
  import opened PorterRules

  // ------------------------------------------------ the first match is the longest

  /** The first rule of a list whose suffix the word ends with. */
  function FirstMatch(rules: seq<Rule>, w: string): (r: Option<Rule>)
    ensures r.Some? ==> r.value in rules && EndsWith(w, r.value.suffix)
  {
    if rules == [] then None
    else if EndsWith(w, rules[0].suffix) then Some(rules[0])
    else FirstMatch(rules[1..], w)
  }

  /** Of two rules of a list that match w, the earlier one has the longer suffix. */
  predicate EarlierIsLonger(rules: seq<Rule>, w: string) {
    forall i, j :: 0 <= i < j < |rules| && EndsWith(w, rules[i].suffix) && EndsWith(w, rules[j].suffix) ==>
      |rules[j].suffix| < |rules[i].suffix|
  }

  lemma {:induction false} FirstIsLongest(rules: seq<Rule>, w: string)
    requires EarlierIsLonger(rules, w)
    ensures FirstMatch(rules, w) == Longest(rules, w)
  {
    hide EndsWith;
    if rules == [] {
    } else {
      var rest := rules[1..];
      assert forall i :: 0 <= i < |rest| ==> rest[i] == rules[i + 1];
      FirstIsLongest(rest, w);
    }
  }

  lemma Step2Order(letter: char, w: string)
    ensures EarlierIsLonger(Step2Rules(letter), w)
  {
    hide EndsWith;
    match letter
    case 'a' =>
    case 'c' =>
      if EndsWith(w, "enci") {
        Clash(w, "enci", "anci", 3);
      }
    case 'l' =>
      if EndsWith(w, "bli") {
        Clash(w, "bli", "alli", 2);
        Clash(w, "bli", "entli", 2);
        Clash(w, "bli", "eli", 2);
        Clash(w, "bli", "ousli", 2);
      }
      if EndsWith(w, "alli") {
        Clash(w, "alli", "entli", 2);
        Clash(w, "alli", "eli", 2);
        Clash(w, "alli", "ousli", 2);
      }
      if EndsWith(w, "entli") {
        Clash(w, "entli", "eli", 2);
        Clash(w, "entli", "ousli", 2);
      }
      if EndsWith(w, "eli") {
        Clash(w, "eli", "ousli", 2);
      }
    case 'o' =>
      if EndsWith(w, "ization") {
        Clash(w, "ization", "ator", 0);
      }
      if EndsWith(w, "ation") {
        Clash(w, "ation", "ator", 0);
      }
    case 's' =>
      if EndsWith(w, "alism") {
        Clash(w, "alism", "iveness", 0);
        Clash(w, "alism", "fulness", 0);
        Clash(w, "alism", "ousness", 0);
      }
      if EndsWith(w, "iveness") {
        Clash(w, "iveness", "fulness", 4);
        Clash(w, "iveness", "ousness", 4);
      }
      if EndsWith(w, "fulness") {
        Clash(w, "fulness", "ousness", 4);
      }
    case 't' =>
      if EndsWith(w, "aliti") {
        Clash(w, "aliti", "iviti", 3);
        Clash(w, "aliti", "biliti", 4);
      }
      if EndsWith(w, "iviti") {
        Clash(w, "iviti", "biliti", 3);
      }
    case _ =>
  }

  lemma Step3Order(letter: char, w: string)
    ensures EarlierIsLonger(Step3Rules(letter), w)
  {
    hide EndsWith;
    match letter
    case 'e' =>
      if EndsWith(w, "icate") {
        Clash(w, "icate", "ative", 1);
        Clash(w, "icate", "alize", 1);
      }
      if EndsWith(w, "ative") {
        Clash(w, "ative", "alize", 1);
      }
    case 'l' =>
      if EndsWith(w, "ical") {
        Clash(w, "ical", "ful", 1);
      }
    case _ =>
  }

  lemma Step4Order(letter: char, w: string)
    ensures EarlierIsLonger(Step4Rules(letter), w)
  {
    hide EndsWith;
    match letter
    case 'c' =>
      if EndsWith(w, "ance") {
        Clash(w, "ance", "ence", 3);
      }
    case 'l' =>
      if EndsWith(w, "able") {
        Clash(w, "able", "ible", 3);
      }
    case 'n' =>
      if EndsWith(w, "ant") {
        Clash(w, "ant", "ement", 2);
        Clash(w, "ant", "ment", 2);
        Clash(w, "ant", "ent", 2);
      }
    case 'o' =>
      if EndsWith(w, "ion") {
        Clash(w, "ion", "ou", 0);
      }
    case 't' =>
      if EndsWith(w, "ate") {
        Clash(w, "ate", "iti", 0);
      }
    case _ =>
  }

  // --------------------------------------------------- letter dispatch, first match

  /** The letters of the tables are all letters that have a group. */
  lemma OtherLetters2(letter: char)
    ensures Distinct(LETTERS2) && (letter !in LETTERS2 ==> Step2Rules(letter) == [])
  {
  }

  lemma OtherLetters3(letter: char)
    ensures Distinct(LETTERS3) && (letter !in LETTERS3 ==> Step3Rules(letter) == [])
  {
  }

  lemma OtherLetters4(letter: char)
    ensures Distinct(LETTERS4) && (letter !in LETTERS4 ==> Step4Rules(letter) == [])
  {
  }

  /** The group of the deciding letter and its first match stand for the whole table, for every word. */
  lemma Step2Dispatch(w: string)
    requires |w| >= 2
    ensures Step2(w) == Replace(FirstMatch(Step2Rules(FromEnd(w, 1)), w), w)
  {
    var letter := FromEnd(w, 1);
    OtherLetters2(letter);
    hide EndsWith, Step2Rules, Table, EarlierIsLonger, AllKeyed, Rewritten, Removed;
    Step2Keyed();
    TableIsGroup(Step2Rules, LETTERS2, 1, w);
    Step2Order(letter, w);
    FirstIsLongest(Step2Rules(letter), w);
  }

  lemma Step3Dispatch(w: string)
    requires |w| >= 1
    ensures Step3(w) == Replace(FirstMatch(Step3Rules(FromEnd(w, 0)), w), w)
  {
    var letter := FromEnd(w, 0);
    OtherLetters3(letter);
    hide EndsWith, Step3Rules, Table, EarlierIsLonger, AllKeyed, Rewritten, Removed;
    Step3Keyed();
    TableIsGroup(Step3Rules, LETTERS3, 0, w);
    Step3Order(letter, w);
    FirstIsLongest(Step3Rules(letter), w);
  }

  lemma Step4Dispatch(w: string)
    requires |w| >= 2
    ensures Step4(w) == Remove(FirstMatch(Step4Rules(FromEnd(w, 1)), w), w)
  {
    var letter := FromEnd(w, 1);
    OtherLetters4(letter);
    hide EndsWith, Step4Rules, Table, EarlierIsLonger, AllKeyed, Rewritten, Removed;
    Step4Keyed();
    TableIsGroup(Step4Rules, LETTERS4, 1, w);
    Step4Order(letter, w);
    FirstIsLongest(Step4Rules(letter), w);
  }

  /** Rule i of the list matches and none before it. */
  predicate Decides(rules: seq<Rule>, w: string, i: nat) {
    i < |rules| && EndsWith(w, rules[i].suffix) && forall j :: 0 <= j < i ==> !EndsWith(w, rules[j].suffix)
  }

  predicate NothingMatches(rules: seq<Rule>, w: string) {
    forall j :: 0 <= j < |rules| ==> !EndsWith(w, rules[j].suffix)
  }

  lemma {:induction false} FirstMatchIs(rules: seq<Rule>, w: string, i: nat)
    requires Decides(rules, w, i)
    ensures FirstMatch(rules, w) == Some(rules[i])
    decreases i
  {
    hide EndsWith;
    if i == 0 {
    } else {
      var rest := rules[1..];
      assert rest[i - 1] == rules[i] && forall j :: 0 <= j < i - 1 ==> rest[j] == rules[j + 1];
      FirstMatchIs(rest, w, i - 1);
    }
  }

  lemma {:induction false} FirstMatchNone(rules: seq<Rule>, w: string)
    requires NothingMatches(rules, w)
    ensures FirstMatch(rules, w) == None
  {
    hide EndsWith;
    if rules == [] {
    } else {
      assert forall j :: 0 <= j < |rules[1..]| ==> rules[1..][j] == rules[j + 1];
      FirstMatchNone(rules[1..], w);
    }
  }

  /** What step 2 does with a word whose group comes up with rule i. */
  lemma Step2Rule(w: string, i: nat)
    requires |w| >= 2 && Decides(Step2Rules(FromEnd(w, 1)), w, i)
    ensures var r := Step2Rules(FromEnd(w, 1))[i];
            EndsWith(w, r.suffix) && Step2(w) == Rewritten(w, r.suffix, r.replacement)
  {
    Step2Dispatch(w);
    FirstMatchIs(Step2Rules(FromEnd(w, 1)), w, i);
  }

  lemma Step2None(w: string)
    requires |w| >= 2 && NothingMatches(Step2Rules(FromEnd(w, 1)), w)
    ensures Step2(w) == w
  {
    Step2Dispatch(w);
    FirstMatchNone(Step2Rules(FromEnd(w, 1)), w);
  }

  lemma Step3Rule(w: string, i: nat)
    requires |w| >= 1 && Decides(Step3Rules(FromEnd(w, 0)), w, i)
    ensures var r := Step3Rules(FromEnd(w, 0))[i];
            EndsWith(w, r.suffix) && Step3(w) == Rewritten(w, r.suffix, r.replacement)
  {
    Step3Dispatch(w);
    FirstMatchIs(Step3Rules(FromEnd(w, 0)), w, i);
  }

  lemma Step3None(w: string)
    requires |w| >= 1 && NothingMatches(Step3Rules(FromEnd(w, 0)), w)
    ensures Step3(w) == w
  {
    Step3Dispatch(w);
    FirstMatchNone(Step3Rules(FromEnd(w, 0)), w);
  }

  lemma Step4Rule(w: string, i: nat)
    requires |w| >= 2 && Decides(Step4Rules(FromEnd(w, 1)), w, i)
    ensures var r := Step4Rules(FromEnd(w, 1))[i];
            EndsWith(w, r.suffix) && Step4(w) == Removed(w, r.suffix)
  {
    Step4Dispatch(w);
    FirstMatchIs(Step4Rules(FromEnd(w, 1)), w, i);
  }

  lemma Step4None(w: string)
    requires |w| >= 2 && NothingMatches(Step4Rules(FromEnd(w, 1)), w)
    ensures Step4(w) == w
  {
    Step4Dispatch(w);
    FirstMatchNone(Step4Rules(FromEnd(w, 1)), w);
  }
}
