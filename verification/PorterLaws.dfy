/**
The rewriting rules of the stemmer one by one, for every stem v: what becomes of v with each
of the endings, and that no other ending changes a word.
*/
module PorterLaws {
  import opened Options
  import opened PorterDispatch
  import opened PorterRules

  // --------------------------------------------------------------- words and endings

  lemma Ending(v: string, s: string)
    ensures EndsWith(v + s, s) && Cut(v + s, |s|) == v
  {
  }

  /** A longer ending of v + s is one of v and then s. */
  lemma EndingBefore(v: string, x: string, s: string)
    ensures EndsWith(v + s, x + s) <==> EndsWith(v, x)
  {
    var w := v + s;
    if |x| <= |v| {
      assert w[|w| - |x + s|..] == v[|v| - |x|..] + s;
      if EndsWith(w, x + s) {
        assert (v[|v| - |x|..] + s)[..|x|] == (x + s)[..|x|];
      }
    }
  }

  lemma EndingLetter(v: string, s: string, d: nat)
    requires d < |s|
    ensures FromEnd(v + s, d) == FromEnd(s, d)
  {
  }

  lemma OtherEnding(v: string, s: string, t: string, d: nat)
    requires d < |s| && d < |t| && FromEnd(s, d) != FromEnd(t, d)
    ensures !EndsWith(v + s, t)
  {
    Ending(v, s);
    Clash(v + s, s, t, d);
  }

  // ------------------------------------------------------------- letters and measure

  /** Every letter but a, e, i, o, u is a consonant, and y is one unless it follows a consonant. */
  lemma Consonants(w: string, i: nat)
    requires i < |w|
    ensures Cons(w, i) <==> w[i] !in "aeiou" && (w[i] == 'y' && i > 0 ==> !Cons(w, i - 1))
  {
  }

  /** A consonant after a vowel. */
  predicate Closes(w: string, i: nat)
    requires i < |w|
  {
    i > 0 && !Cons(w, i - 1) && Cons(w, i)
  }

  /** The places where a consonant follows a vowel. */
  ghost function Closings(w: string): set<nat> {
    set i: nat | i < |w| && Closes(w, i)
  }

  /** The measure counts them. */
  lemma {:induction false} MeasureCounts(w: string)
    ensures Measure(w) == |Closings(w)|
    decreases |w|
  {
    if |w| < 2 {
      assert Closings(w) == {};
    } else {
      var n := |w| - 1;
      MeasureCounts(w[..n]);
      forall i: nat | i < n ensures Cons(w[..n], i) == Cons(w, i) {
        ConsOfCut(w, n, i);
      }
      hide Cons;
      assert Closings(w) == Closings(w[..n]) + if Closes(w, n) then {n} else {};
    }
  }

  predicate VowelLetter(w: string, i: nat)
    requires i < |w|
  {
    w[i] in "aeiou" || (i > 0 && w[i] == 'y')
  }

  /** A word has a vowel if and only if it has an a, e, i, o or u, or a y behind its first letter. */
  lemma VowelLaw(w: string)
    ensures HasVowel(w) <==> exists i :: 0 <= i < |w| && VowelLetter(w, i)
  {
    if i :| 0 <= i < |w| && VowelLetter(w, i) {
      assert !Cons(w, i) || !Cons(w, i - 1);
    }
    if i :| 0 <= i < |w| && !Cons(w, i) {
      assert VowelLetter(w, i);
    }
  }

  lemma VowelIn(w: string, i: nat)
    requires i < |w| && w[i] in "aeiou"
    ensures HasVowel(w)
  {
    assert VowelLetter(w, i);
    VowelLaw(w);
  }

  /** Consonant, vowel, consonant at the end, the last one not w, x or y. */
  lemma CvcLaw(v: string, a: char, b: char, c: char)
    ensures var w, n := v + [a, b, c], |v|;
            EndsCvc(w) <==> Cons(w, n) && !Cons(w, n + 1) && Cons(w, n + 2) && c !in "wxy"
  {
    hide Cons;
  }

  // -------------------------------------------------------------------------- step 1

  lemma LastIs(v: string, c: char)
    requires v != ""
    ensures EndsWith(v, [c]) <==> v[|v| - 1] == c
  {
  }

  lemma LastLetters(v: string, s: string)
    requires |s| >= 2
    ensures (v + s)[|v + s| - 1] == s[|s| - 1] && (v + s)[|v + s| - 2] == s[|s| - 2]
  {
  }

  lemma SsesLaw(v: string)
    ensures Step1a(v + "sses") == v + "ss"
  {
    LastLetters(v, "sses");
    Ending(v, "sses");
    assert v + "sses" == v + "ss" + "es";
    Ending(v + "ss", "es");
    hide EndsWith;
  }

  lemma IesLaw(v: string)
    ensures Step1a(v + "ies") == v + "i"
  {
    LastLetters(v, "ies");
    OtherEnding(v, "ies", "sses", 2);
    Ending(v, "ies");
    hide EndsWith;
  }

  lemma SsLaw(v: string)
    ensures Step1a(v + "ss") == v + "ss"
  {
    LastLetters(v, "ss");
    OtherEnding(v, "ss", "sses", 1);
    OtherEnding(v, "ss", "ies", 1);
    hide EndsWith;
  }

  lemma PluralLaw(v: string)
    requires v != "" && !EndsWith(v, "s") && !EndsWith(v, "sse") && !EndsWith(v, "ie")
    ensures Step1a(v + "s") == v
  {
    hide Step1a;
    LastIs(v, 's');
    Ending(v, "s");
    LongerPlurals(v);
    hide EndsWith;
    assert (v + "s")[|v|] == 's' && (v + "s")[|v| - 1] == v[|v| - 1];
    PluralIs(v + "s");
  }

  lemma LongerPlurals(v: string)
    ensures EndsWith(v + "s", "sses") <==> EndsWith(v, "sse")
    ensures EndsWith(v + "s", "ies") <==> EndsWith(v, "ie")
  {
    EndingBefore(v, "sse", "s");
    EndingBefore(v, "ie", "s");
    hide EndsWith;
    assert "sse" + "s" == "sses" && "ie" + "s" == "ies";
  }

  lemma PluralIs(w: string)
    requires |w| >= 2 && w[|w| - 1] == 's' && w[|w| - 2] != 's' && !EndsWith(w, "sses") && !EndsWith(w, "ies")
    ensures Step1a(w) == Cut(w, 1)
  {
    hide EndsWith;
  }

  lemma Step1aLaws(v: string)
    ensures Step1a(v + "sses") == v + "ss"
    ensures Step1a(v + "ies") == v + "i"
    ensures Step1a(v + "ss") == v + "ss"
    ensures v != "" && !EndsWith(v, "s") && !EndsWith(v, "sse") && !EndsWith(v, "ie") ==> Step1a(v + "s") == v
    ensures |v| >= 2 && !EndsWith(v, "s") ==> Step1a(v) == v
  {
    if |v| >= 2 {
      LastIs(v, 's');
      NoS(v);
    }
    hide EndsWith, Step1a;
    SsesLaw(v);
    IesLaw(v);
    SsLaw(v);
    if v != "" && !EndsWith(v, "s") && !EndsWith(v, "sse") && !EndsWith(v, "ie") {
      PluralLaw(v);
    }
  }

  lemma NoS(v: string)
    requires |v| >= 2
    ensures v[|v| - 1] != 's' ==> Step1a(v) == v
  {
    hide EndsWith;
  }

  lemma EedLaw(v: string)
    ensures Step1b(v + "eed") == if Measure(v) > 0 then v + "ee" else v + "eed"
  {
    hide Measure, PastTense, EndsWith;
    Ending(v, "eed");
    assert v + "eed" == v + "ee" + "d";
    Ending(v + "ee", "d");
  }

  lemma EdLaw(v: string)
    requires !EndsWith(v, "e")
    ensures Step1b(v + "ed") == if HasVowel(v) then Restore(v) else v + "ed"
  {
    hide HasVowel, Restore, EndsWith;
    Ending(v, "ed");
    EndingBefore(v, "e", "ed");
    assert "e" + "ed" == "eed";
  }

  lemma IngLaw(v: string)
    ensures Step1b(v + "ing") == if HasVowel(v) then Restore(v) else v + "ing"
  {
    hide HasVowel, Restore, EndsWith;
    Ending(v, "ing");
    OtherEnding(v, "ing", "eed", 0);
    OtherEnding(v, "ing", "ed", 0);
  }

  lemma Step1bLaws(v: string)
    ensures Step1b(v + "eed") == if Measure(v) > 0 then v + "ee" else v + "eed"
    ensures !EndsWith(v, "e") ==> Step1b(v + "ed") == if HasVowel(v) then Restore(v) else v + "ed"
    ensures Step1b(v + "ing") == if HasVowel(v) then Restore(v) else v + "ing"
    ensures !EndsWith(v, "ed") && !EndsWith(v, "ing") ==> Step1b(v) == v
  {
    EedIsEd(v);
    EedLaw(v);
    IngLaw(v);
    hide EndsWith, Measure, HasVowel, Restore;
    if !EndsWith(v, "e") {
      EdLaw(v);
    }
  }

  lemma EedIsEd(w: string)
    ensures EndsWith(w, "eed") ==> EndsWith(w, "ed")
  {
    if EndsWith(w, "eed") {
      assert w[|w| - 3..][1..] == w[|w| - 2..];
    }
  }

  /** What is repaired after -ed and -ing. */
  lemma RestoreLaws(v: string)
    ensures Restore(v + "at") == v + "ate"
    ensures Restore(v + "bl") == v + "ble"
    ensures Restore(v + "iz") == v + "ize"
  {
    hide RestoreEnd;
    Ending(v, "at");
    Ending(v, "bl");
    Ending(v, "iz");
    assert v + "at" + "e" == v + "ate" && v + "bl" + "e" == v + "ble" && v + "iz" + "e" == v + "ize";
  }

  /** A double consonant is halved unless it is ll, ss or zz. */
  lemma DoubleLaw(v: string, c: char)
    requires Cons(v + [c, c], |v| + 1)
    ensures Restore(v + [c, c]) == if c in "lsz" then v + [c, c] else v + [c]
  {
    NotDoubled(v, c, "at");
    NotDoubled(v, c, "bl");
    NotDoubled(v, c, "iz");
    DoubleIs(v, c, c);
    LastLetters(v, [c, c]);
    hide Cons, Measure, EndsCvc, EndsWith, EndsDouble;
    assert v + [c, c] == v + [c] + [c];
    Ending(v + [c], [c]);
  }

  lemma NotDoubled(v: string, c: char, s: string)
    requires |s| == 2 && s[0] != s[1]
    ensures !EndsWith(v + [c, c], s)
  {
    if c != s[1] {
      OtherEnding(v, [c, c], s, 0);
    } else {
      OtherEnding(v, [c, c], s, 1);
    }
  }

  /** Otherwise a short stem gets an e. */
  lemma ShortLaw(w: string)
    requires !EndsWith(w, "at") && !EndsWith(w, "bl") && !EndsWith(w, "iz") && !EndsDouble(w)
    ensures Restore(w) == if Measure(w) == 1 && EndsCvc(w) then w + "e" else w
  {
  }

  lemma DoubleIs(v: string, a: char, b: char)
    ensures EndsDouble(v + [a, b]) <==> a == b && Cons(v + [a, b], |v| + 1)
  {
    LastLetters(v, [a, b]);
    hide Cons;
  }

  lemma Step1cLaws(v: string)
    ensures Step1c(v + "y") == if HasVowel(v) then v + "i" else v + "y"
    ensures !EndsWith(v, "y") ==> Step1c(v) == v
  {
    hide HasVowel;
    Ending(v, "y");
  }

  // -------------------------------------------------------------------------- step 2

  /** The step makes v + t of v + s when v has a positive measure, for every v but those ending in `longer`. */
  ghost predicate Rewrites(step: string -> string, s: string, t: string, longer: string) {
    forall v: string :: (longer != "" ==> !EndsWith(v, longer)) ==>
      step(v + s) == if Measure(v) > 0 then v + t else v + s
  }

  lemma Rewrite2(v: string, s: string, t: string, i: nat)
    requires |s| >= 2
    requires var rules := Step2Rules(FromEnd(s, 1));
             && i < |rules| && rules[i] == Rule(s, t)
             && forall j :: 0 <= j < i ==> |rules[j].suffix| <= |s| || !EndsWith(v + s, rules[j].suffix)
    ensures Step2(v + s) == if Measure(v) > 0 then v + t else v + s
  {
    hide Step2, Step2Rules, Measure, EndsWith;
    Ending(v, s);
    EndingLetter(v, s, 1);
    Step2Order(FromEnd(s, 1), v + s);
    Step2Rule(v + s, i);
  }

  /** A rule before which no rule of its group has a longer suffix. */
  lemma Law2(s: string, t: string, i: nat)
    requires |s| >= 2
    requires var rules := Step2Rules(FromEnd(s, 1));
             i < |rules| && rules[i] == Rule(s, t) && forall j :: 0 <= j < i ==> |rules[j].suffix| <= |s|
    ensures Rewrites(Step2, s, t, "")
  {
    hide Step2, Step2Rules, Measure, EndsWith;
    forall v: string ensures Step2(v + s) == if Measure(v) > 0 then v + t else v + s {
      Rewrite2(v, s, t, i);
    }
  }

  lemma TionalLaw()
    ensures Rewrites(Step2, "tional", "tion", "a")
  {
    hide Step2, Measure, EndsWith;
    forall v: string | !EndsWith(v, "a")
      ensures Step2(v + "tional") == if Measure(v) > 0 then v + "tion" else v + "tional"
    {
      EndingBefore(v, "a", "tional");
      assert "a" + "tional" == "ational";
      Rewrite2(v, "tional", "tion", 1);
    }
  }

  lemma AtionLaw()
    ensures Rewrites(Step2, "ation", "ate", "iz")
  {
    hide Step2, Measure, EndsWith;
    forall v: string | !EndsWith(v, "iz")
      ensures Step2(v + "ation") == if Measure(v) > 0 then v + "ate" else v + "ation"
    {
      EndingBefore(v, "iz", "ation");
      assert "iz" + "ation" == "ization";
      Rewrite2(v, "ation", "ate", 1);
    }
  }

  lemma AtorLaw()
    ensures Rewrites(Step2, "ator", "ate", "")
  {
    hide Step2, Measure, EndsWith;
    forall v: string ensures Step2(v + "ator") == if Measure(v) > 0 then v + "ate" else v + "ator" {
      OtherEnding(v, "ator", "ization", 0);
      OtherEnding(v, "ator", "ation", 0);
      Rewrite2(v, "ator", "ate", 2);
    }
  }

  lemma EliLaw()
    ensures Rewrites(Step2, "eli", "e", "")
  {
    hide Step2, Measure, EndsWith;
    forall v: string ensures Step2(v + "eli") == if Measure(v) > 0 then v + "e" else v + "eli" {
      OtherEnding(v, "eli", "alli", 2);
      OtherEnding(v, "eli", "entli", 2);
      Rewrite2(v, "eli", "e", 3);
    }
  }

  lemma Step2LawsOfL()
    ensures Rewrites(Step2, "bli", "ble", "") && Rewrites(Step2, "alli", "al", "")
    ensures Rewrites(Step2, "entli", "ent", "") && Rewrites(Step2, "eli", "e", "") && Rewrites(Step2, "ousli", "ous", "")
  {
    hide Step2, Rewrites;
    Law2("bli", "ble", 0);
    Law2("alli", "al", 1);
    Law2("entli", "ent", 2);
    EliLaw();
    Law2("ousli", "ous", 4);
  }

  lemma Step2LawsOfO()
    ensures Rewrites(Step2, "ization", "ize", "") && Rewrites(Step2, "ation", "ate", "iz")
    ensures Rewrites(Step2, "ator", "ate", "")
  {
    hide Step2, Rewrites;
    Law2("ization", "ize", 0);
    AtionLaw();
    AtorLaw();
  }

  lemma Step2LawsOfS()
    ensures Rewrites(Step2, "alism", "al", "") && Rewrites(Step2, "iveness", "ive", "")
    ensures Rewrites(Step2, "fulness", "ful", "") && Rewrites(Step2, "ousness", "ous", "")
  {
    hide Step2, Rewrites;
    Law2("alism", "al", 0);
    Law2("iveness", "ive", 1);
    Law2("fulness", "ful", 2);
    Law2("ousness", "ous", 3);
  }

  lemma Step2LawsOfT()
    ensures Rewrites(Step2, "aliti", "al", "") && Rewrites(Step2, "iviti", "ive", "")
    ensures Rewrites(Step2, "biliti", "ble", "")
  {
    hide Step2, Rewrites;
    Law2("aliti", "al", 0);
    Law2("iviti", "ive", 1);
    Law2("biliti", "ble", 2);
  }

  /** The rules of step 2. */
  lemma Step2Laws()
    ensures Rewrites(Step2, "ational", "ate", "") && Rewrites(Step2, "tional", "tion", "a")
    ensures Rewrites(Step2, "enci", "ence", "") && Rewrites(Step2, "anci", "ance", "")
    ensures Rewrites(Step2, "izer", "ize", "")
    ensures Rewrites(Step2, "bli", "ble", "") && Rewrites(Step2, "alli", "al", "")
    ensures Rewrites(Step2, "entli", "ent", "") && Rewrites(Step2, "eli", "e", "") && Rewrites(Step2, "ousli", "ous", "")
    ensures Rewrites(Step2, "ization", "ize", "") && Rewrites(Step2, "ation", "ate", "iz")
    ensures Rewrites(Step2, "ator", "ate", "")
    ensures Rewrites(Step2, "alism", "al", "") && Rewrites(Step2, "iveness", "ive", "")
    ensures Rewrites(Step2, "fulness", "ful", "") && Rewrites(Step2, "ousness", "ous", "")
    ensures Rewrites(Step2, "aliti", "al", "") && Rewrites(Step2, "iviti", "ive", "")
    ensures Rewrites(Step2, "biliti", "ble", "")
    ensures Rewrites(Step2, "logi", "log", "")
  {
    hide Step2, Rewrites;
    Law2("ational", "ate", 0);
    TionalLaw();
    Law2("enci", "ence", 0);
    Law2("anci", "ance", 1);
    Law2("izer", "ize", 0);
    Law2("logi", "log", 0);
    hide Step2Rules;
    Step2LawsOfL();
    Step2LawsOfO();
    Step2LawsOfS();
    Step2LawsOfT();
  }

  // -------------------------------------------------------------------------- step 3

  lemma Rewrite3(v: string, s: string, t: string, i: nat)
    requires |s| >= 1
    requires var rules := Step3Rules(FromEnd(s, 0));
             && i < |rules| && rules[i] == Rule(s, t)
             && forall j :: 0 <= j < i ==> |rules[j].suffix| <= |s| || !EndsWith(v + s, rules[j].suffix)
    ensures Step3(v + s) == if Measure(v) > 0 then v + t else v + s
  {
    hide Step3, Step3Rules, Measure, EndsWith;
    Ending(v, s);
    EndingLetter(v, s, 0);
    Step3Order(FromEnd(s, 0), v + s);
    Step3Rule(v + s, i);
  }

  lemma Law3(s: string, t: string, i: nat)
    requires |s| >= 1
    requires var rules := Step3Rules(FromEnd(s, 0));
             i < |rules| && rules[i] == Rule(s, t) && forall j :: 0 <= j < i ==> |rules[j].suffix| <= |s|
    ensures Rewrites(Step3, s, t, "")
  {
    hide Step3, Step3Rules, Measure, EndsWith;
    forall v: string ensures Step3(v + s) == if Measure(v) > 0 then v + t else v + s {
      Rewrite3(v, s, t, i);
    }
  }

  lemma FulLaw()
    ensures Rewrites(Step3, "ful", "", "")
  {
    hide Step3, Measure, EndsWith;
    forall v: string ensures Step3(v + "ful") == if Measure(v) > 0 then v + "" else v + "ful" {
      OtherEnding(v, "ful", "ical", 1);
      Rewrite3(v, "ful", "", 1);
    }
  }

  /** The rules of step 3. */
  lemma Step3Laws()
    ensures Rewrites(Step3, "icate", "ic", "") && Rewrites(Step3, "ative", "", "") && Rewrites(Step3, "alize", "al", "")
    ensures Rewrites(Step3, "iciti", "ic", "") && Rewrites(Step3, "ical", "ic", "") && Rewrites(Step3, "ful", "", "")
    ensures Rewrites(Step3, "ness", "", "")
  {
    hide Step3, Rewrites;
    Law3("icate", "ic", 0);
    Law3("ative", "", 1);
    Law3("alize", "al", 2);
    Law3("iciti", "ic", 0);
    Law3("ical", "ic", 0);
    FulLaw();
    Law3("ness", "", 0);
  }

  // -------------------------------------------------------------------------- step 4

  /** Step 4 takes s off every v of measure above 1 but those ending in `longer`. */
  ghost predicate Removes(s: string, longer: string) {
    forall v: string :: (longer != "" ==> !EndsWith(v, longer)) ==>
      Step4(v + s) == if Measure(v) > 1 then v else v + s
  }

  lemma Remove4(v: string, s: string, i: nat)
    requires |s| >= 2 && s != "ion"
    requires var rules := Step4Rules(FromEnd(s, 1));
             && i < |rules| && rules[i] == Rule(s, "")
             && forall j :: 0 <= j < i ==> |rules[j].suffix| <= |s| || !EndsWith(v + s, rules[j].suffix)
    ensures Step4(v + s) == if Measure(v) > 1 then v else v + s
  {
    hide Step4, Step4Rules, Measure, EndsWith;
    Ending(v, s);
    EndingLetter(v, s, 1);
    Step4Order(FromEnd(s, 1), v + s);
    Step4Rule(v + s, i);
  }

  lemma Law4(s: string, i: nat)
    requires |s| >= 2 && s != "ion"
    requires var rules := Step4Rules(FromEnd(s, 1));
             i < |rules| && rules[i] == Rule(s, "") && forall j :: 0 <= j < i ==> |rules[j].suffix| <= |s|
    ensures Removes(s, "")
  {
    hide Step4, Step4Rules, Measure, EndsWith;
    forall v: string ensures Step4(v + s) == if Measure(v) > 1 then v else v + s {
      Remove4(v, s, i);
    }
  }

  lemma MentLaw()
    ensures Removes("ment", "e")
  {
    hide Step4, Measure, EndsWith;
    forall v: string | !EndsWith(v, "e") ensures Step4(v + "ment") == if Measure(v) > 1 then v else v + "ment" {
      EndingBefore(v, "e", "ment");
      assert "e" + "ment" == "ement";
      Remove4(v, "ment", 2);
    }
  }

  lemma EntLaw()
    ensures Removes("ent", "m")
  {
    hide Step4, Measure, EndsWith;
    forall v: string | !EndsWith(v, "m") ensures Step4(v + "ent") == if Measure(v) > 1 then v else v + "ent" {
      EndingBefore(v, "m", "ent");
      assert "m" + "ent" == "ment";
      EmentIsMent(v + "ent");
      Remove4(v, "ent", 3);
    }
  }

  lemma EmentIsMent(w: string)
    ensures EndsWith(w, "ement") ==> EndsWith(w, "ment")
  {
    if EndsWith(w, "ement") {
      assert w[|w| - 5..][1..] == w[|w| - 4..];
    }
  }

  lemma OuLaw()
    ensures Removes("ou", "")
  {
    hide Step4, Measure, EndsWith;
    forall v: string ensures Step4(v + "ou") == if Measure(v) > 1 then v else v + "ou" {
      OtherEnding(v, "ou", "ion", 0);
      Remove4(v, "ou", 1);
    }
  }

  lemma IonLaw(v: string)
    ensures Step4(v + "ion") == if Measure(v) > 1 && (EndsWith(v, "s") || EndsWith(v, "t")) then v else v + "ion"
  {
    hide Step4, Measure, EndsWith;
    Ending(v, "ion");
    EndingLetter(v, "ion", 1);
    Step4Rule(v + "ion", 0);
  }

  lemma Step4LawsToL()
    ensures Removes("al", "") && Removes("ance", "") && Removes("ence", "") && Removes("er", "") && Removes("ic", "")
    ensures Removes("able", "") && Removes("ible", "")
  {
    hide Step4, Removes;
    Law4("al", 0);
    Law4("ance", 0);
    Law4("ence", 1);
    Law4("er", 0);
    Law4("ic", 0);
    Law4("able", 0);
    Law4("ible", 1);
  }

  lemma Step4LawsFromS()
    ensures Removes("ism", "") && Removes("ate", "") && Removes("iti", "")
    ensures Removes("ous", "") && Removes("ive", "") && Removes("ize", "")
  {
    hide Step4, Removes;
    Law4("ism", 0);
    Law4("ate", 0);
    Law4("iti", 1);
    Law4("ous", 0);
    Law4("ive", 0);
    Law4("ize", 0);
  }

  /** The rules of step 4. */
  lemma Step4Laws()
    ensures Removes("al", "") && Removes("ance", "") && Removes("ence", "") && Removes("er", "") && Removes("ic", "")
    ensures Removes("able", "") && Removes("ible", "") && Removes("ant", "") && Removes("ement", "")
    ensures Removes("ment", "e") && Removes("ent", "m") && Removes("ou", "") && Removes("ism", "") && Removes("ate", "")
    ensures Removes("iti", "") && Removes("ous", "") && Removes("ive", "") && Removes("ize", "")
    ensures forall v: string ::
              Step4(v + "ion") == if Measure(v) > 1 && (EndsWith(v, "s") || EndsWith(v, "t")) then v else v + "ion"
  {
    hide Step4, Removes, Measure, EndsWith;
    Law4("ant", 0);
    Law4("ement", 1);
    hide Step4Rules;
    MentLaw();
    EntLaw();
    OuLaw();
    Step4LawsToL();
    Step4LawsFromS();
    forall v: string
      ensures Step4(v + "ion") == if Measure(v) > 1 && (EndsWith(v, "s") || EndsWith(v, "t")) then v else v + "ion"
    {
      IonLaw(v);
    }
  }

  // ------------------------------------------------------- no other ending is changed

  lemma {:induction false} InTable(groups: char -> seq<Rule>, letters: string, r: Rule)
    requires r in Table(groups, letters)
    ensures exists c :: c in letters && r in groups(c)
  {
    if letters == [] || r in groups(letters[0]) {
    } else {
      InTable(groups, letters[1..], r);
    }
  }

  const SUFFIXES2: seq<string> := [
    "ational", "tional", "enci", "anci", "izer", "bli", "alli", "entli", "eli", "ousli", "ization", "ation", "ator",
    "alism", "iveness", "fulness", "ousness", "aliti", "iviti", "biliti", "logi"
  ]

  const SUFFIXES3: seq<string> := ["icate", "ative", "alize", "iciti", "ical", "ful", "ness"]

  const SUFFIXES4: seq<string> := [
    "al", "ance", "ence", "er", "ic", "able", "ible", "ant", "ement", "ment", "ent", "ion", "ou", "ism", "ate", "iti",
    "ous", "ive", "ize"
  ]

  lemma Listed2(c: char, r: Rule)
    requires r in Step2Rules(c)
    ensures r.suffix in SUFFIXES2
  {
  }

  lemma Listed3(c: char, r: Rule)
    requires r in Step3Rules(c)
    ensures r.suffix in SUFFIXES3
  {
  }

  lemma Listed4(c: char, r: Rule)
    requires r in Step4Rules(c)
    ensures r.suffix in SUFFIXES4
  {
  }

  /** A word that ends in none of the suffixes of a step is left alone by it. */
  lemma OtherWordsStay(w: string)
    ensures (forall s :: s in SUFFIXES2 ==> !EndsWith(w, s)) ==> Step2(w) == w
    ensures (forall s :: s in SUFFIXES3 ==> !EndsWith(w, s)) ==> Step3(w) == w
    ensures (forall s :: s in SUFFIXES4 ==> !EndsWith(w, s)) ==> Step4(w) == w
  {
    hide EndsWith, Table, Rewritten, Removed, Step2Rules, Step3Rules, Step4Rules;
    var two, three, four := Longest(Table(Step2Rules, LETTERS2), w), Longest(Table(Step3Rules, LETTERS3), w),
                            Longest(Table(Step4Rules, LETTERS4), w);
    if two.Some? {
      InTable(Step2Rules, LETTERS2, two.value);
      var c :| two.value in Step2Rules(c);
      Listed2(c, two.value);
    }
    if three.Some? {
      InTable(Step3Rules, LETTERS3, three.value);
      var c :| three.value in Step3Rules(c);
      Listed3(c, three.value);
    }
    if four.Some? {
      InTable(Step4Rules, LETTERS4, four.value);
      var c :| four.value in Step4Rules(c);
      Listed4(c, four.value);
    }
  }

  // -------------------------------------------------------------------------- step 5

  lemma Step5aLaws(v: string)
    ensures Step5a(v + "e")
         == if Measure(v + "e") > 1 || (Measure(v + "e") == 1 && !EndsCvc(v)) then v else v + "e"
    ensures !EndsWith(v, "e") ==> Step5a(v) == v
  {
    hide Measure, EndsCvc, EndsWith;
    Ending(v, "e");
  }

  lemma Step5bLaws(v: string)
    ensures Step5b(v + "ll") == if Measure(v + "ll") > 1 then v + "l" else v + "ll"
    ensures !EndsWith(v, "ll") ==> Step5b(v) == v
  {
    hide Measure, EndsWith;
    assert v + "ll" == v + "l" + "l";
    Ending(v + "l", "l");
    DoubleL(v + "ll");
    DoubleL(v);
    Ending(v, "ll");
  }

  lemma DoubleL(w: string)
    ensures EndsWith(w, "l") && EndsDouble(w) <==> EndsWith(w, "ll")
  {
    if |w| >= 2 {
      assert w[|w| - 2..] == [w[|w| - 2], w[|w| - 1]];
      assert w[|w| - 1..] == [w[|w| - 1]];
    }
  }

  // ------------------------------------------------------------------- whole words

  /** The measure of a word that grows by a letter other than y. */
  lemma OneMoreLetter(u: string, c: char, w: string)
    requires u != "" && u[|u| - 1] != 'y' && c != 'y' && w == u + [c]
    ensures Measure(w) == Measure(u) + if u[|u| - 1] in "aeiou" && c !in "aeiou" then 1 else 0
  {
    assert w[..|u|] == u;
  }

  lemma Differs(w: string, s: string, d: nat)
    requires d < |w| && d < |s| && FromEnd(w, d) != FromEnd(s, d)
    ensures !EndsWith(w, s)
  {
    if EndsWith(w, s) {
      EndsWithLetter(w, s, d);
    }
  }

  /** Words that end in none of s, d, g, y, e and l are left alone by steps 1 and 5. */
  lemma OtherEndsStay(w: string, c: char)
    requires |w| >= 2 && FromEnd(w, 0) == c && c !in "sdgyel"
    ensures Step1a(w) == w && Step1b(w) == w && Step1c(w) == w && Step5a(w) == w && Step5b(w) == w
  {
    Differs(w, "s", 0);
    Differs(w, "ed", 0);
    Differs(w, "ing", 0);
    Differs(w, "y", 0);
    Differs(w, "e", 0);
    Differs(w, "ll", 0);
    hide Step1a, Step1b, Step1c, Step5a, Step5b, EndsWith;
    Step1aLaws(w);
    Step1bLaws(w);
    Step1cLaws(w);
    Step5aLaws(w);
    Step5bLaws(w);
  }

  lemma FirstLetters()
    ensures Measure("gener") == 2
  {
    OneMoreLetter("g", 'e', "ge");
    OneMoreLetter("ge", 'n', "gen");
    OneMoreLetter("gen", 'e', "gene");
    OneMoreLetter("gene", 'r', "gener");
  }

  lemma MoreLetters()
    ensures Measure("gener") == 2 && Measure("general") == 3
  {
    FirstLetters();
    OneMoreLetter("gener", 'a', "genera");
    OneMoreLetter("genera", 'l', "general");
  }

  lemma NotPlural(v: string)
    requires |v| >= 1 && FromEnd(v, 0) !in "se"
    ensures Step1a(v + "s") == v
  {
    Differs(v, "s", 0);
    Differs(v, "sse", 0);
    Differs(v, "ie", 0);
    hide EndsWith, Step1a;
    Step1aLaws(v);
  }

  lemma ByLaw2(v: string, s: string, t: string)
    requires Measure(v) > 0 && Rewrites(Step2, s, t, "")
    ensures Step2(v + s) == v + t
  {
    hide Measure, Step2, EndsWith;
  }

  lemma ByLaw3(v: string, s: string, t: string)
    requires Measure(v) > 0 && Rewrites(Step3, s, t, "")
    ensures Step3(v + s) == v + t
  {
    hide Measure, Step3, EndsWith;
  }

  lemma ByLaw4(v: string, s: string)
    requires Measure(v) > 1 && Removes(s, "")
    ensures Step4(v + s) == v
  {
    hide Measure, Step4, EndsWith;
  }

  lemma StemIs(w: string, v: string)
    requires |w| > 2 && v == Step1b(Step1a(w)) && |v| > 1
    ensures Stem(w) == Step5b(Step5a(Step4(Step3(Step2(Step1c(v))))))
  {
    hide Step1a, Step1b, Step1c, Step2, Step3, Step4, Step5a, Step5b;
  }

  lemma GeneralizationsMiddle()
    ensures Step2("generalization") == "generalize" && Step3("generalize") == "general" && Step4("general") == "gener"
  {
    MoreLetters();
    hide Measure, Step2, Step3, Step4, EndsWith, Rewrites, Removes;
    Step2LawsOfO();
    Step3Laws();
    Step4LawsToL();
    ByLaw2("general", "ization", "ize");
    ByLaw3("gener", "alize", "al");
    ByLaw4("gener", "al");
    assert "general" + "ization" == "generalization";
    assert "general" + "ize" == "generalize" && "gener" + "alize" == "generalize";
    assert "gener" + "al" == "general";
  }

  lemma GeneralizationsEnds()
    ensures Step1a("generalizations") == "generalization"
    ensures Step1b("generalization") == "generalization" && Step1c("generalization") == "generalization"
    ensures Step5a("gener") == "gener" && Step5b("gener") == "gener"
  {
    var v, u := "generalization", "gener";
    assert v + "s" == "generalizations";
    assert FromEnd(v, 0) == 'n' && FromEnd(u, 0) == 'r';
    hide Step1a, Step1b, Step1c, Step5a, Step5b, FromEnd;
    NotPlural(v);
    OtherEndsStay(v, 'n');
    OtherEndsStay(u, 'r');
  }

  /** `generalizations` loses -s, -ation, -ize and -al, one in each of four steps. */
  lemma GeneralizationsIsGener()
    ensures Stem("generalizations") == "gener"
  {
    hide Stem, Step1a, Step1b, Step1c, Step2, Step3, Step4, Step5a, Step5b;
    GeneralizationsEnds();
    GeneralizationsMiddle();
    StemIs("generalizations", "generalization");
  }

  lemma Step2Stays(w: string, b: char, a: char)
    requires |w| >= 2 && FromEnd(w, 1) == b && FromEnd(w, 0) == a
    requires b !in "acelostg" || (b == 'o' && a !in "nr") || (b == 's' && a !in "ms")
    ensures Step2(w) == w
  {
    hide Step2, EndsWith;
    if b == 'o' {
      Differs(w, "ization", 0);
      Differs(w, "ation", 0);
      Differs(w, "ator", 0);
    } else if b == 's' {
      Differs(w, "alism", 0);
      Differs(w, "iveness", 0);
      Differs(w, "fulness", 0);
      Differs(w, "ousness", 0);
    }
    Step2None(w);
  }

  lemma Step3Stays(w: string, b: char, a: char)
    requires |w| >= 2 && FromEnd(w, 1) == b && FromEnd(w, 0) == a
    requires a !in "eils" || (a == 'i' && b != 't') || (a == 'e' && b !in "tvz")
    ensures Step3(w) == w
  {
    hide Step3, EndsWith;
    if a == 'i' {
      Differs(w, "iciti", 1);
    } else if a == 'e' {
      Differs(w, "icate", 1);
      Differs(w, "ative", 1);
      Differs(w, "alize", 1);
    }
    Step3None(w);
  }

  lemma Step4Stays(w: string, b: char, a: char)
    requires |w| >= 2 && FromEnd(w, 1) == b && FromEnd(w, 0) == a
    requires b !in "aceilnostuvz" || (b == 'o' && a !in "nu") || (b == 's' && a != 'm')
    ensures Step4(w) == w
  {
    hide Step4, EndsWith;
    if b == 'o' {
      Differs(w, "ion", 0);
      Differs(w, "ou", 0);
    } else if b == 's' {
      Differs(w, "ism", 0);
    }
    Step4None(w);
  }

  /** The last letter but one and the last one of a word that steps 2 to 4 leave alone. */
  predicate Quiet(b: char, a: char) {
    && (b !in "acegilnostuvz" || (b == 'o' && a !in "nru") || (b == 's' && a !in "ms"))
    && (a !in "eils" || (a == 'i' && b != 't') || (a == 'e' && b !in "tvz"))
  }

  lemma MiddleStays(w: string)
    requires |w| >= 2 && Quiet(FromEnd(w, 1), FromEnd(w, 0))
    ensures Step2(w) == w && Step3(w) == w && Step4(w) == w
  {
    var b, a := FromEnd(w, 1), FromEnd(w, 0);
    hide Step2, Step3, Step4, FromEnd;
    Step2Stays(w, b, a);
    Step3Stays(w, b, a);
    Step4Stays(w, b, a);
  }

  /** What -ing leaves behind after a vowel and two equal consonants. */
  lemma DoubledIng(v: string, c: char)
    requires HasVowel(v) && c !in "aeiouylsz"
    ensures Step1a(v + [c, c] + "ing") == v + [c, c] + "ing" && Step1b(v + [c, c] + "ing") == v + [c]
  {
    var u := v + [c, c];
    VowelKept(v, [c, c]);
    OtherEnding(u, "ing", "s", 0);
    Consonants(u, |v| + 1);
    hide Step1a, Step1b, Restore, EndsWith, HasVowel, Cons;
    Step1aLaws(u + "ing");
    IngLaw(u);
    DoubleLaw(v, c);
  }

  lemma VowelKept(v: string, s: string)
    requires HasVowel(v)
    ensures HasVowel(v + s)
  {
    var i :| 0 <= i < |v| && !Cons(v, i);
    assert (v + s)[..|v|] == v;
    ConsOfCut(v + s, |v|, i);
  }

  lemma HopEnds()
    ensures FromEnd("hop", 0) == 'p' && Quiet(FromEnd("hop", 1), FromEnd("hop", 0))
  {
  }

  lemma HappiEnds()
    ensures FromEnd("happi", 0) == 'i' && Quiet(FromEnd("happi", 1), FromEnd("happi", 0))
  {
  }

  lemma CeaseEnds()
    ensures Quiet(FromEnd("cease", 1), FromEnd("cease", 0)) && !EndsWith("ceas", "ll")
  {
    Differs("ceas", "ll", 0);
  }

  /** `hopping` loses -ing and half of its double consonant. */
  lemma HoppingIsHop()
    ensures Stem("hopping") == "hop"
  {
    VowelIn("ho", 1);
    assert "ho" + ['p', 'p'] + "ing" == "hopping" && "ho" + ['p'] == "hop";
    HopEnds();
    hide Stem, Step1a, Step1b, Step1c, Step2, Step3, Step4, Step5a, Step5b, HasVowel, FromEnd, Quiet;
    DoubledIng("ho", 'p');
    OtherEndsStay("hop", 'p');
    MiddleStays("hop");
    StemIs("hopping", "hop");
  }

  lemma LongY(v: string)
    requires HasVowel(v)
    ensures Step1a(v + "y") == v + "y" && Step1b(v + "y") == v + "y" && Step1c(v + "y") == v + "i"
  {
    OtherEnding(v, "y", "s", 0);
    OtherEnding(v, "y", "ed", 0);
    OtherEnding(v, "y", "ing", 0);
    hide Step1a, Step1b, Step1c, HasVowel, EndsWith;
    NotEmpty(v);
    Step1aLaws(v + "y");
    Step1bLaws(v + "y");
    Step1cLaws(v);
  }

  lemma NotEmpty(v: string)
    requires HasVowel(v)
    ensures v != ""
  {
  }

  /** The final y of `happy` becomes i. */
  lemma HappyIsHappi()
    ensures Stem("happy") == "happi"
  {
    VowelIn("happ", 1);
    assert "happ" + "y" == "happy" && "happ" + "i" == "happi";
    HappiEnds();
    hide Stem, Step1a, Step1b, Step1c, Step2, Step3, Step4, Step5a, Step5b, HasVowel, FromEnd, Quiet;
    LongY("happ");
    OtherEndsStay("happi", 'i');
    MiddleStays("happi");
    StemIs("happy", "happy");
  }

  lemma EndsInE(v: string)
    requires |v| >= 1
    ensures Step1a(v + "e") == v + "e" && Step1b(v + "e") == v + "e" && Step1c(v + "e") == v + "e"
  {
    OtherEnding(v, "e", "s", 0);
    OtherEnding(v, "e", "ed", 0);
    OtherEnding(v, "e", "ing", 0);
    OtherEnding(v, "e", "y", 0);
    hide Step1a, Step1b, Step1c, EndsWith;
    Step1aLaws(v + "e");
    Step1bLaws(v + "e");
    Step1cLaws(v + "e");
  }

  lemma CeaseMeasure()
    ensures Measure("cease") == 1 && !EndsCvc("ceas")
  {
    OneMoreLetter("c", 'e', "ce");
    OneMoreLetter("ce", 'a', "cea");
    OneMoreLetter("cea", 's', "ceas");
    OneMoreLetter("ceas", 'e', "cease");
  }

  /** `cease` loses its final e. */
  lemma CeaseIsCeas()
    ensures Stem("cease") == "ceas"
  {
    CeaseMeasure();
    assert "ceas" + "e" == "cease";
    CeaseEnds();
    hide Stem, Step1a, Step1b, Step1c, Step2, Step3, Step4, Step5a, Step5b, Measure, EndsCvc, EndsWith, FromEnd, Quiet;
    EndsInE("ceas");
    MiddleStays("cease");
    Step5aLaws("ceas");
    Step5bLaws("ceas");
    StemIs("cease", "cease");
  }

  lemma OscillMeasure()
    ensures Measure("oscill") == 2
  {
    OneMoreLetter("o", 's', "os");
    OneMoreLetter("os", 'c', "osc");
    OneMoreLetter("osc", 'i', "osci");
    OneMoreLetter("osci", 'l', "oscil");
    OneMoreLetter("oscil", 'l', "oscill");
  }

  lemma AteStays(v: string)
    requires v != "" && v[|v| - 1] != 'c'
    ensures Step3(v + "ate") == v + "ate"
  {
    var w := v + "ate";
    assert FromEnd(w, 0) == 'e';
    Differs(w, "icate", 3);
    Differs(w, "ative", 1);
    Differs(w, "alize", 1);
    hide Step3, EndsWith;
    Step3None(w);
  }

  lemma OscillatorsMiddle()
    ensures Step2("oscillator") == "oscillate" && Step3("oscillate") == "oscillate" && Step4("oscillate") == "oscill"
  {
    OscillMeasure();
    assert "oscill" + "ator" == "oscillator" && "oscill" + "ate" == "oscillate";
    hide Measure, Step2, Step3, Step4, EndsWith, Rewrites, Removes;
    AtorLaw();
    ByLaw2("oscill", "ator", "ate");
    AteStays("oscill");
    Step4LawsFromS();
    ByLaw4("oscill", "ate");
  }

  lemma OscillatorsEnds()
    ensures Step1a("oscillators") == "oscillator"
    ensures Step1b("oscillator") == "oscillator" && Step1c("oscillator") == "oscillator"
    ensures Step5a("oscill") == "oscill" && Step5b("oscill") == "oscil"
  {
    var v := "oscillator";
    OscillMeasure();
    assert v + "s" == "oscillators" && FromEnd(v, 0) == 'r';
    assert "osci" + "ll" == "oscill" && "osci" + "l" == "oscil";
    Differs("oscill", "e", 0);
    hide Step1a, Step1b, Step1c, Step5a, Step5b, FromEnd, Measure, EndsWith;
    NotPlural(v);
    OtherEndsStay(v, 'r');
    Step5aLaws("oscill");
    Step5bLaws("osci");
  }

  /** `oscillators` loses -s, -or, -ate and an l. */
  lemma OscillatorsIsOscil()
    ensures Stem("oscillators") == "oscil"
  {
    hide Stem, Step1a, Step1b, Step1c, Step2, Step3, Step4, Step5a, Step5b;
    OscillatorsEnds();
    OscillatorsMiddle();
    StemIs("oscillators", "oscillator");
  }
}
