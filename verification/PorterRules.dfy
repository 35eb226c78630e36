/**
The Porter stemming algorithm as rewriting of words (M. F. Porter, "An algorithm for
suffix stripping", Program 14(3), 1980), with the departures marked in the C source:
words of one or two letters are left alone, step 2 has the rules bli -> ble and
logi -> log, and the later steps are skipped when step 1ab leaves one letter.

Steps 2, 3 and 4 are given by tables; the longest suffix of the whole table that
matches decides, and nothing is tried after it.
*/
module PorterRules {
  import opened Options

  datatype Rule = Rule(suffix: string, replacement: string)

  // ------------------------------------------------------------ letters and words

  /** A letter is a consonant unless it is a, e, i, o, u, or a y that follows a consonant. */
  predicate Cons(w: string, i: nat)
    requires i < |w|
  {
    match w[i]
    case 'a' => false
    case 'e' => false
    case 'i' => false
    case 'o' => false
    case 'u' => false
    case 'y' => if i == 0 then true else !Cons(w, i - 1)
    case _ => true
  }

  /** The measure of a word: how often a vowel is followed by a consonant. */
  function Measure(w: string): nat {
    if |w| < 2 then 0
    else Measure(w[..|w| - 1]) + if !Cons(w, |w| - 2) && Cons(w, |w| - 1) then 1 else 0
  }

  predicate HasVowel(w: string) {
    exists i :: 0 <= i < |w| && !Cons(w, i)
  }

  /** The word ends in a double consonant. */
  predicate EndsDouble(w: string) {
    var n := |w|;
    n >= 2 && w[n - 1] == w[n - 2] && Cons(w, n - 1)
  }

  /** The word ends consonant - vowel - consonant, the last one not w, x or y. */
  predicate EndsCvc(w: string) {
    var n := |w|;
    n >= 3 && Cons(w, n - 1) && !Cons(w, n - 2) && Cons(w, n - 3)
    && w[n - 1] != 'w' && w[n - 1] != 'x' && w[n - 1] != 'y'
  }

  predicate EndsWith(w: string, s: string) {
    |s| <= |w| && w[|w| - |s|..] == s
  }

  /** The word without its last n letters. */
  function Cut(w: string, n: nat): string
    requires n <= |w|
  {
    w[..|w| - n]
  }

  // ------------------------------------------------------------------- step 1

  /** Plurals. */
  function Step1a(w: string): string
    requires |w| >= 2
  {
    if w[|w| - 1] != 's' then w
    else if EndsWith(w, "sses") then Cut(w, 2)
    else if EndsWith(w, "ies") then Cut(w, 3) + "i"
    else if w[|w| - 2] != 's' then Cut(w, 1)
    else w
  }

  /** Repairs a stem that has just lost -ed or -ing. */
  function Restore(w: string): string {
    if EndsWith(w, "at") || EndsWith(w, "bl") || EndsWith(w, "iz") then w + "e" else RestoreEnd(w)
  }

  function RestoreEnd(w: string): string {
    if EndsDouble(w) then
      var last := w[|w| - 1];
      if last == 'l' || last == 's' || last == 'z' then w else Cut(w, 1)
    else if Measure(w) == 1 && EndsCvc(w) then w + "e"
    else w
  }

  function Step1b(w: string): string {
    if EndsWith(w, "eed") then if Measure(Cut(w, 3)) > 0 then Cut(w, 1) else w
    else PastTense(w)
  }

  function PastTense(w: string): string {
    if EndsWith(w, "ed") then if HasVowel(Cut(w, 2)) then Restore(Cut(w, 2)) else w
    else if EndsWith(w, "ing") then if HasVowel(Cut(w, 3)) then Restore(Cut(w, 3)) else w
    else w
  }

  function Step1c(w: string): string {
    if EndsWith(w, "y") && HasVowel(Cut(w, 1)) then Cut(w, 1) + "i" else w
  }

  // ---------------------------------------------------------- steps 2, 3 and 4

  /** The rule with the longest matching suffix. */
  function Longest(rules: seq<Rule>, w: string): (r: Option<Rule>)
    ensures r.None? ==> forall q :: q in rules ==> !EndsWith(w, q.suffix)
    ensures r.Some? ==> r.value in rules && EndsWith(w, r.value.suffix)
    ensures r.Some? ==> forall q :: q in rules && EndsWith(w, q.suffix) ==> |q.suffix| <= |r.value.suffix|
  {
    if rules == [] then None
    else
      var rest := Longest(rules[1..], w);
      assert forall q :: q in rules ==> q == rules[0] || q in rules[1..];
      if EndsWith(w, rules[0].suffix) && (rest.None? || |rest.value.suffix| < |rules[0].suffix|)
      then Some(rules[0]) else rest
  }

  function Step2Rules(letter: char): seq<Rule> {
    match letter
    case 'a' => [Rule("ational", "ate"), Rule("tional", "tion")]
    case 'c' => [Rule("enci", "ence"), Rule("anci", "ance")]
    case 'e' => [Rule("izer", "ize")]
    case 'l' => [Rule("bli", "ble"), Rule("alli", "al"), Rule("entli", "ent"), Rule("eli", "e"), Rule("ousli", "ous")]
    case 'o' => [Rule("ization", "ize"), Rule("ation", "ate"), Rule("ator", "ate")]
    case 's' => [Rule("alism", "al"), Rule("iveness", "ive"), Rule("fulness", "ful"), Rule("ousness", "ous")]
    case 't' => [Rule("aliti", "al"), Rule("iviti", "ive"), Rule("biliti", "ble")]
    case 'g' => [Rule("logi", "log")]
    case _ => []
  }

  function Step3Rules(letter: char): seq<Rule> {
    match letter
    case 'e' => [Rule("icate", "ic"), Rule("ative", ""), Rule("alize", "al")]
    case 'i' => [Rule("iciti", "ic")]
    case 'l' => [Rule("ical", "ic"), Rule("ful", "")]
    case 's' => [Rule("ness", "")]
    case _ => []
  }

  function Step4Rules(letter: char): seq<Rule> {
    match letter
    case 'a' => [Rule("al", "")]
    case 'c' => [Rule("ance", ""), Rule("ence", "")]
    case 'e' => [Rule("er", "")]
    case 'i' => [Rule("ic", "")]
    case 'l' => [Rule("able", ""), Rule("ible", "")]
    case 'n' => [Rule("ant", ""), Rule("ement", ""), Rule("ment", ""), Rule("ent", "")]
    case 'o' => [Rule("ion", ""), Rule("ou", "")]
    case 's' => [Rule("ism", "")]
    case 't' => [Rule("ate", ""), Rule("iti", "")]
    case 'u' => [Rule("ous", "")]
    case 'v' => [Rule("ive", "")]
    case 'z' => [Rule("ize", "")]
    case _ => []
  }

  /** A whole table: the rules of all letters, one group after the other. */
  function Table(groups: char -> seq<Rule>, letters: string): seq<Rule> {
    if letters == [] then [] else groups(letters[0]) + Table(groups, letters[1..])
  }

  const LETTERS2 := "acelostg"
  const LETTERS3 := "eils"
  const LETTERS4 := "aceilnostuvz"

  /** Maps double suffixes to single ones when the stem before them has a positive measure. */
  function Step2(w: string): string {
    Replace(Longest(Table(Step2Rules, LETTERS2), w), w)
  }

  /** Deals with -ic-, -full, -ness and the like, as step 2 does. */
  function Step3(w: string): string {
    Replace(Longest(Table(Step3Rules, LETTERS3), w), w)
  }

  function Replace(rule: Option<Rule>, w: string): string
    requires rule.Some? ==> EndsWith(w, rule.value.suffix)
  {
    match rule
    case None => w
    case Some(r) => Rewritten(w, r.suffix, r.replacement)
  }

  function Rewritten(w: string, suffix: string, replacement: string): string
    requires EndsWith(w, suffix)
  {
    var stem := Cut(w, |suffix|);
    if Measure(stem) > 0 then stem + replacement else w
  }

  /** Takes a suffix off a stem of measure above 1; -ion only after s or t. */
  function Step4(w: string): string {
    Remove(Longest(Table(Step4Rules, LETTERS4), w), w)
  }

  function Remove(rule: Option<Rule>, w: string): string
    requires rule.Some? ==> EndsWith(w, rule.value.suffix)
  {
    match rule
    case None => w
    case Some(r) => Removed(w, r.suffix)
  }

  function Removed(w: string, suffix: string): string
    requires EndsWith(w, suffix)
  {
    var stem := Cut(w, |suffix|);
    if suffix == "ion" && !(EndsWith(stem, "s") || EndsWith(stem, "t")) then w
    else if Measure(stem) > 1 then stem
    else w
  }

  // ------------------------------------------------------------------- step 5

  function Step5a(w: string): string {
    if EndsWith(w, "e") && (Measure(w) > 1 || (Measure(w) == 1 && !EndsCvc(Cut(w, 1)))) then Cut(w, 1) else w
  }

  function Step5b(w: string): string {
    if EndsWith(w, "l") && EndsDouble(w) && Measure(w) > 1 then Cut(w, 1) else w
  }

  // ------------------------------------------------------------------ the stem

  function Stem(w: string): string {
    if |w| <= 2 then w
    else
      var v := Step1b(Step1a(w));
      if |v| <= 1 then v else Step5b(Step5a(Step4(Step3(Step2(Step1c(v))))))
  }

  // ---------------------------------------- letters and measure only look leftwards

  lemma {:induction false} ConsPrefix(w: string, v: string, i: nat)
    requires i < |w| && i < |v| && w[..i + 1] == v[..i + 1]
    ensures Cons(w, i) == Cons(v, i)
  {
    assert w[i] == w[..i + 1][i] == v[..i + 1][i] == v[i];
    if i == 0 {
    } else {
      assert w[..i] == w[..i + 1][..i] == v[..i + 1][..i] == v[..i];
      ConsPrefix(w, v, i - 1);
    }
  }

  lemma ConsOfCut(w: string, n: nat, i: nat)
    requires i < n <= |w|
    ensures Cons(w[..n], i) == Cons(w, i)
  {
    assert w[..n][..i + 1] == w[..i + 1];
    ConsPrefix(w[..n], w, i);
  }

  /** A measure above 0 takes at least one vowel and one consonant. */
  lemma {:induction false} MeasureNeedsLetters(w: string)
    ensures Measure(w) * 2 <= |w|
  {
    if |w| < 2 {
    } else {
      MeasureNeedsLetters(w[..|w| - 1]);
      var u := w[..|w| - 1];
      if !Cons(w, |w| - 2) && Cons(w, |w| - 1) && |u| >= 2 {
        // the letter before last is a vowel, so it closes no transition
        ConsOfCut(w, |w| - 1, |w| - 2);
        MeasureNeedsLetters(u[..|u| - 1]);
      }
    }
  }

  lemma MatchFits(w: string, s: string)
    requires EndsWith(w, s)
    ensures |s| <= |w|
  {
  }

  lemma Rejoin(w: string, s: string)
    ensures EndsWith(w, s) ==> Cut(w, |s|) + (s + "e") == w + "e"
  {
  }

  /** A final vowel does not change the measure. */
  lemma MeasureOfVowelEnd(w: string)
    requires |w| >= 1 && !Cons(w, |w| - 1)
    ensures Measure(w) == Measure(Cut(w, 1))
  {
  }

  // ------------------------------------------- the table and its letter groups

  /** The letter of s at distance d from its end. */
  function FromEnd(s: string, d: nat): char
    requires d < |s|
  {
    s[|s| - 1 - d]
  }

  lemma EndsWithLetter(w: string, s: string, d: nat)
    requires EndsWith(w, s) && d < |s|
    ensures FromEnd(w, d) == FromEnd(s, d)
  {
    assert w[|w| - |s|..][|s| - 1 - d] == w[|w| - 1 - d];
  }

  /** Two suffixes that differ in a letter do not both match. */
  lemma Clash(w: string, s: string, t: string, d: nat)
    requires EndsWith(w, s) && d < |s| && d < |t| && FromEnd(s, d) != FromEnd(t, d)
    ensures !EndsWith(w, t)
  {
    EndsWithLetter(w, s, d);
    if EndsWith(w, t) {
      EndsWithLetter(w, t, d);
    }
  }

  /** All suffixes of the group have `letter` at distance d from their end. */
  predicate Keyed(rules: seq<Rule>, letter: char, d: nat) {
    forall i :: 0 <= i < |rules| ==> d < |rules[i].suffix| && FromEnd(rules[i].suffix, d) == letter
  }

  ghost predicate AllKeyed(groups: char -> seq<Rule>, d: nat) {
    forall letter :: Keyed(groups(letter), letter, d)
  }

  lemma Step2Keyed()
    ensures AllKeyed(Step2Rules, 1)
  {
  }

  lemma Step3Keyed()
    ensures AllKeyed(Step3Rules, 0)
  {
  }

  lemma Step4Keyed()
    ensures AllKeyed(Step4Rules, 1)
  {
  }

  lemma OtherLetter(rules: seq<Rule>, letter: char, d: nat, w: string)
    requires Keyed(rules, letter, d) && (d < |w| ==> FromEnd(w, d) != letter)
    ensures Longest(rules, w).None?
  {
    if Longest(rules, w).Some? {
      var q := Longest(rules, w).value;
      EndsWithLetter(w, q.suffix, d);
    }
  }

  lemma {:induction false} LongestConcat(a: seq<Rule>, b: seq<Rule>, w: string)
    ensures Longest(b, w).None? ==> Longest(a + b, w) == Longest(a, w)
    ensures Longest(a, w).None? ==> Longest(a + b, w) == Longest(b, w)
  {
    if a == [] {
      assert a + b == b;
    } else {
      assert (a + b)[1..] == a[1..] + b;
      LongestConcat(a[1..], b, w);
    }
  }

  predicate Distinct(letters: string) {
    forall i, j :: 0 <= i < j < |letters| ==> letters[i] != letters[j]
  }

  /** Over the whole table, only the group of the word's own letter can match. */
  lemma {:induction false} TableIsGroup(groups: char -> seq<Rule>, letters: string, d: nat, w: string)
    requires AllKeyed(groups, d) && Distinct(letters) && d < |w|
    ensures Longest(Table(groups, letters), w)
         == if FromEnd(w, d) in letters then Longest(groups(FromEnd(w, d)), w) else None
  {
    if letters == [] {
    } else {
      var c := letters[0];
      assert Distinct(letters[1..]);
      TableIsGroup(groups, letters[1..], d, w);
      LongestConcat(groups(c), Table(groups, letters[1..]), w);
      if FromEnd(w, d) != c {
        OtherLetter(groups(c), c, d, w);
      }
    }
  }

  // ---------------------------------------------------- how short a word can get

  lemma RewrittenKeepsTwo(w: string, suffix: string, replacement: string)
    requires |w| >= 2 && EndsWith(w, suffix)
    ensures |Rewritten(w, suffix, replacement)| >= 2
  {
    MeasureNeedsLetters(Cut(w, |suffix|));
  }

  lemma ReplaceKeepsTwo(rule: Option<Rule>, w: string)
    requires |w| >= 2 && (rule.Some? ==> EndsWith(w, rule.value.suffix))
    ensures |Replace(rule, w)| >= 2
  {
    hide EndsWith, Rewritten;
    match rule
    case None =>
    case Some(r) => RewrittenKeepsTwo(w, r.suffix, r.replacement);
  }

  lemma Step1cKeepsTwo(w: string)
    requires |w| >= 2
    ensures |Step1c(w)| >= 2
  {
    hide HasVowel;
  }

  /** The steps before step 4 never leave fewer than two letters of two. */
  lemma MiddleStepsKeepTwo(w: string)
    requires |w| >= 2
    ensures |Step1c(w)| >= 2 && |Step2(w)| >= 2 && |Step3(w)| >= 2
  {
    hide Step1c, Replace, Table, EndsWith;
    Step1cKeepsTwo(w);
    ReplaceKeepsTwo(Longest(Table(Step2Rules, LETTERS2), w), w);
    ReplaceKeepsTwo(Longest(Table(Step3Rules, LETTERS3), w), w);
  }

  /** Each step of a longer word finds at least two letters, so a letter before the last one. */
  lemma EnoughLetters(v: string)
    requires |v| >= 2
    ensures |Step1c(v)| >= 2 && |Step2(Step1c(v))| >= 2 && |Step3(Step2(Step1c(v)))| >= 2
  {
    hide Step1c, Step2, Step3;
    MiddleStepsKeepTwo(v);
    MiddleStepsKeepTwo(Step1c(v));
    MiddleStepsKeepTwo(Step2(Step1c(v)));
  }

  lemma ShortStem(w: string)
    requires |w| <= 2
    ensures Stem(w) == w
  {
  }
}
