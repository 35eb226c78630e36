/**
The client's stemmer: the C functions that work in place on a shared buffer `b` with the
word in b[k0..k] and a general offset `j`. Every method is proved against the pure
rewriting rules of PorterRules, and every access stays inside the word handed in.
*/
module PorterStemmer {
  import opened PorterDispatch
  import opened PorterRules

  /** What stands where after s was written over `before` from offset m on. */
  lemma Spliced(before: string, s: string, from: nat, m: nat, to: nat)
    requires from <= m <= m + |s| <= to <= |before|
    ensures var after := before[..m] + s + before[m + |s|..];
            && after[from..m + |s|] == before[from..m] + s
            && after[..from] == before[..from] && after[to..] == before[to..]
  {
  }

  class Stemmer {
    var b: array<char>
    var k: int
    var k0: int
    var j: int
    ghost var end: int // where the word handed in ends

    constructor ()
    {
      b := new char[0];
      k, k0, j := 0, 0, 0;
      end := 0;
    }

    ghost predicate Bounds()
      reads `b, `k, `k0, `end
    {
      0 <= k0 <= k <= end < b.Length
    }

    /** The word as it stands. */
    ghost function Word(): string
      requires Bounds()
      reads `b, `k, `k0, `end, b
    {
      b[k0..k + 1]
    }

    /** The part of the word up to offset j. */
    ghost function UpToJ(): string
      requires 0 <= k0 <= j + 1 <= b.Length
      reads `b, `k0, `j, b
    {
      b[k0..j + 1]
    }

    /** Nothing around the word handed in has changed. */
    ghost predicate SameOutside(before: seq<char>)
      reads `b, `k0, `end, b
    {
      0 <= k0 <= end < b.Length == |before| && b[..k0] == before[..k0] && b[end + 1..] == before[end + 1..]
    }

    /** Every single letter is read through here. */
    function At(i: int): char
      requires Bounds() && k0 <= i <= end
      reads `b, `k, `k0, `end, b
    {
      b[i]
    }

    predicate ConsAt(i: int)
      requires Bounds() && k0 <= i <= end
      reads `b, `k, `k0, `end, b
      decreases i
    {
      match At(i)
      case 'a' => false
      case 'e' => false
      case 'i' => false
      case 'o' => false
      case 'u' => false
      case 'y' => if i == k0 then true else !ConsAt(i - 1)
      case _ => true
    }

    lemma {:induction false} ConsAtIsCons(i: int, to: int)
      requires Bounds() && k0 <= i < to <= end + 1
      ensures ConsAt(i) == Cons(b[k0..to], i - k0)
      decreases i
    {
      if i == k0 {
      } else {
        ConsAtIsCons(i - 1, to);
      }
    }

    /** The measure of the word up to, not including, index `to`. */
    ghost function Count(to: int): nat
      requires Bounds() && k0 <= to <= end + 1
      reads `b, `k, `k0, `end, b
    {
      Measure(b[k0..to])
    }

    lemma CountStart()
      requires Bounds()
      ensures Count(k0) == 0
      ensures Count(k0 + 1) == 0
    {
    }

    lemma CountAll()
      requires Bounds() && k0 - 1 <= j <= end
      ensures Count(j + 1) == Measure(UpToJ())
    {
    }

    lemma CountNext(to: int)
      requires Bounds() && k0 < to <= end
      ensures Count(to + 1) == Count(to) + if !ConsAt(to - 1) && ConsAt(to) then 1 else 0
    {
      var w := b[k0..to + 1];
      assert w[..|w| - 1] == b[k0..to];
      ConsAtIsCons(to - 1, to + 1);
      ConsAtIsCons(to, to + 1);
    }

    /** Counts the vowel-consonant sequences of b[k0..j]. */
    method M() returns (n: nat)
      requires Bounds() && k0 - 1 <= j <= end
      ensures n == Measure(UpToJ())
    {
      hide Measure, ConsAt, Count, UpToJ;
      CountAll();
      n := 0;
      var i := k0;
      CountStart();
      while true
        invariant k0 <= i <= j + 1
        invariant Count(i) == 0
        invariant i > k0 ==> ConsAt(i - 1)
        decreases j + 1 - i
      {
        if i > j {
          return n;
        }
        if i > k0 {
          CountNext(i);
        }
        if !ConsAt(i) {
          break;
        }
        i := i + 1;
      }
      i := i + 1;
      while true
        invariant k0 < i <= j + 1
        invariant n == Count(i) && !ConsAt(i - 1)
        decreases j + 1 - i
      {
        while true
          invariant k0 < i <= j + 1
          invariant n == Count(i) && !ConsAt(i - 1)
          decreases j + 1 - i
        {
          if i > j {
            return n;
          }
          CountNext(i);
          if ConsAt(i) {
            break;
          }
          i := i + 1;
        }
        i := i + 1;
        n := n + 1;
        while true
          invariant k0 < i <= j + 1
          invariant n == Count(i) && ConsAt(i - 1)
          decreases j + 1 - i
        {
          if i > j {
            return n;
          }
          CountNext(i);
          if !ConsAt(i) {
            break;
          }
          i := i + 1;
        }
        i := i + 1;
      }
    }

    method VowelInStem() returns (found: bool)
      requires Bounds() && k0 - 1 <= j <= end
      ensures found == HasVowel(UpToJ())
      ensures found ==> j >= k0
    {
      ghost var w := UpToJ();
      var i := k0;
      while i <= j
        invariant k0 <= i <= j + 1
        invariant forall x :: 0 <= x < i - k0 ==> Cons(w, x)
      {
        ConsAtIsCons(i, j + 1);
        if !ConsAt(i) {
          return true;
        }
        i := i + 1;
      }
      return false;
    }

    predicate DoubleC(i: int)
      requires Bounds() && k0 <= i <= end
      reads `b, `k, `k0, `end, b
    {
      if i < k0 + 1 then false else if At(i) != At(i - 1) then false else ConsAt(i)
    }

    predicate Cvc(i: int)
      requires Bounds() && k0 <= i <= end
      reads `b, `k, `k0, `end, b
    {
      if i < k0 + 2 || !ConsAt(i) || ConsAt(i - 1) || !ConsAt(i - 2) then false
      else var ch := At(i); !(ch == 'w' || ch == 'x' || ch == 'y')
    }

    lemma DoubleCIsEndsDouble(i: int)
      requires Bounds() && k0 <= i <= end
      ensures DoubleC(i) == EndsDouble(b[k0..i + 1])
    {
      ConsAtIsCons(i, i + 1);
    }

    lemma CvcIsEndsCvc(i: int)
      requires Bounds() && k0 <= i <= end
      ensures Cvc(i) == EndsCvc(b[k0..i + 1])
    {
      ConsAtIsCons(i, i + 1);
      if i >= k0 + 2 {
        ConsAtIsCons(i - 1, i + 1);
        ConsAtIsCons(i - 2, i + 1);
      }
    }

    /** Tests for a suffix and, when it is there, leaves j in front of it. */
    method Ends(s: string) returns (matches: bool)
      requires Bounds() && |s| > 0
      modifies this`j
      ensures matches == EndsWith(Word(), s)
      ensures matches ==> j == k - |s| && k0 - 1 <= j && UpToJ() == Cut(Word(), |s|)
      ensures !matches ==> j == old(j)
    {
      var length := |s|;
      ghost var w := Word();
      if s[length - 1] != At(k) {
        if EndsWith(w, s) {
          EndsWithLetter(w, s, 0);
        }
        return false;
      }
      if length > k - k0 + 1 {
        return false;
      }
      assert w[|w| - length..] == b[k - length + 1..k + 1];
      if b[k - length + 1..k + 1] != s {
        return false;
      }
      j := k - length;
      CutWord(j);
      return true;
    }

    /** Puts s behind offset j and moves k to its end. */
    method Setto(s: string)
      requires Bounds() && k0 - 1 <= j && k0 <= j + |s| <= end
      modifies this`k, b
      ensures Bounds() && k == j + |s|
      ensures Word() == old(UpToJ()) + s
      ensures SameOutside(old(b[..]))
    {
      hide SameOutside, Word;
      ghost var before := b[..];
      Overwrite(s);
      k := j + |s|;
      Overwritten(before, s);
    }

    lemma Overwritten(before: string, s: string)
      requires Bounds() && k0 - 1 <= j && k == j + |s| && |before| == b.Length
      requires b[..] == before[..j + 1] + s + before[k + 1..]
      ensures Word() == before[k0..j + 1] + s && SameOutside(before)
    {
      Spliced(before, s, k0, j + 1, end + 1);
    }

    /** Copies s behind offset j. */
    method Overwrite(s: string)
      requires 0 <= j + 1 <= j + 1 + |s| <= b.Length
      modifies b
      ensures b[..] == old(b[..j + 1]) + s + old(b[j + 1 + |s|..])
    {
      forall x | 0 <= x < |s| {
        b[j + 1 + x] := s[x];
      }
    }

    /** Replaces the part behind j when the part before has a positive measure. */
    method R(s: string)
      requires Bounds() && k0 - 1 <= j <= k && |s| <= k - j
      modifies this`k, b
      ensures Bounds() && SameOutside(old(b[..]))
      ensures Word() == if Measure(old(UpToJ())) > 0 then old(UpToJ()) + s else old(Word())
    {
      var m := M();
      MeasureNeedsLetters(UpToJ());
      if m > 0 {
        Setto(s);
      }
    }

    lemma LastLetters()
      requires Bounds()
      ensures |Word()| == k - k0 + 1 && At(k) == FromEnd(Word(), 0)
      ensures k > k0 ==> At(k - 1) == FromEnd(Word(), 1)
    {
    }

    lemma CutWord(m: int)
      requires Bounds() && k0 - 1 <= m <= k
      ensures b[k0..m + 1] == Cut(Word(), k - m)
    {
      var all := b[..];
      assert b[k0..m + 1] == all[k0..m + 1] && Word() == all[k0..k + 1];
      assert all[k0..k + 1][..m + 1 - k0] == all[k0..m + 1];
    }

    lemma WordIs()
      requires Bounds()
      ensures Word() == b[k0..k + 1]
    {
    }

    lemma Length()
      requires Bounds()
      ensures |Word()| == k - k0 + 1
    {
    }

    lemma WholeWord()
      requires Bounds() && j == k
      ensures UpToJ() == Word()
    {
    }

    lemma NothingChanged()
      requires Bounds()
      ensures SameOutside(b[..])
    {
    }

    /** The line of steps 2 and 3 that tests for a suffix and replaces it. */
    method EndsThenR(s: string, t: string) returns (matches: bool)
      requires Bounds() && |s| > 0 && |t| <= |s|
      modifies this`k, this`j, b
      ensures Bounds() && SameOutside(old(b[..]))
      ensures matches == EndsWith(old(Word()), s)
      ensures Word() == if matches then Rewritten(old(Word()), s, t) else old(Word())
      ensures !matches ==> b[..] == old(b[..])
    {
      hide EndsWith, Word, SameOutside, Cut, UpToJ;
      NothingChanged();
      matches := Ends(s);
      if matches {
        R(t);
      }
    }

    /** The case of step2() for words whose last letter but one is l. */
    method Step2CaseL()
      requires Bounds() && k > k0 && At(k - 1) == 'l'
      modifies this`k, this`j, b
      ensures Bounds() && SameOutside(old(b[..])) && Word() == Step2(old(Word()))
    {
      hide Step2, EndsWith, Word, SameOutside, Cut, UpToJ;
      ghost var w := Word();
      var matches: bool;
      LastLetters();
      NothingChanged();
      matches := EndsThenR("bli", "ble");
      if matches {
        Step2Rule(w, 0);
        return;
      }
      matches := EndsThenR("alli", "al");
      if matches {
        Step2Rule(w, 1);
        return;
      }
      matches := EndsThenR("entli", "ent");
      if matches {
        Step2Rule(w, 2);
        return;
      }
      matches := EndsThenR("eli", "e");
      if matches {
        Step2Rule(w, 3);
        return;
      }
      matches := EndsThenR("ousli", "ous");
      if matches {
        Step2Rule(w, 4);
        return;
      }
      Step2None(w);
    }

    /** The case of step2() for words whose last letter but one is o. */
    method Step2CaseO()
      requires Bounds() && k > k0 && At(k - 1) == 'o'
      modifies this`k, this`j, b
      ensures Bounds() && SameOutside(old(b[..])) && Word() == Step2(old(Word()))
    {
      hide Step2, EndsWith, Word, SameOutside, Cut, UpToJ;
      ghost var w := Word();
      var matches: bool;
      LastLetters();
      NothingChanged();
      matches := EndsThenR("ization", "ize");
      if matches {
        Step2Rule(w, 0);
        return;
      }
      matches := EndsThenR("ation", "ate");
      if matches {
        Step2Rule(w, 1);
        return;
      }
      matches := EndsThenR("ator", "ate");
      if matches {
        Step2Rule(w, 2);
        return;
      }
      Step2None(w);
    }

    /** The case of step2() for words whose last letter but one is s. */
    method Step2CaseS()
      requires Bounds() && k > k0 && At(k - 1) == 's'
      modifies this`k, this`j, b
      ensures Bounds() && SameOutside(old(b[..])) && Word() == Step2(old(Word()))
    {
      hide Step2, EndsWith, Word, SameOutside, Cut, UpToJ;
      ghost var w := Word();
      var matches: bool;
      LastLetters();
      NothingChanged();
      matches := EndsThenR("alism", "al");
      if matches {
        Step2Rule(w, 0);
        return;
      }
      matches := EndsThenR("iveness", "ive");
      if matches {
        Step2Rule(w, 1);
        return;
      }
      matches := EndsThenR("fulness", "ful");
      if matches {
        Step2Rule(w, 2);
        return;
      }
      matches := EndsThenR("ousness", "ous");
      if matches {
        Step2Rule(w, 3);
        return;
      }
      Step2None(w);
    }

    /** The case of step2() for words whose last letter but one is t. */
    method Step2CaseT()
      requires Bounds() && k > k0 && At(k - 1) == 't'
      modifies this`k, this`j, b
      ensures Bounds() && SameOutside(old(b[..])) && Word() == Step2(old(Word()))
    {
      hide Step2, EndsWith, Word, SameOutside, Cut, UpToJ;
      ghost var w := Word();
      var matches: bool;
      LastLetters();
      NothingChanged();
      matches := EndsThenR("aliti", "al");
      if matches {
        Step2Rule(w, 0);
        return;
      }
      matches := EndsThenR("iviti", "ive");
      if matches {
        Step2Rule(w, 1);
        return;
      }
      matches := EndsThenR("biliti", "ble");
      if matches {
        Step2Rule(w, 2);
        return;
      }
      Step2None(w);
    }

    /** step2() */
    method Step2InPlace()
      requires Bounds() && k > k0
      modifies this`k, this`j, b
      ensures Bounds() && SameOutside(old(b[..])) && Word() == Step2(old(Word()))
    {
      hide Step2, EndsWith, Word, SameOutside, Cut, UpToJ;
      ghost var w := Word();
      var matches: bool;
      LastLetters();
      NothingChanged();
      match At(k - 1) {
        case 'a' =>
          matches := EndsThenR("ational", "ate");
          if matches {
            Step2Rule(w, 0);
            return;
          }
          matches := EndsThenR("tional", "tion");
          if matches {
            Step2Rule(w, 1);
            return;
          }
          Step2None(w);
        case 'c' =>
          matches := EndsThenR("enci", "ence");
          if matches {
            Step2Rule(w, 0);
            return;
          }
          matches := EndsThenR("anci", "ance");
          if matches {
            Step2Rule(w, 1);
            return;
          }
          Step2None(w);
        case 'e' =>
          matches := EndsThenR("izer", "ize");
          if matches {
            Step2Rule(w, 0);
            return;
          }
          Step2None(w);
        case 'l' =>
          Step2CaseL();
        case 'o' =>
          Step2CaseO();
        case 's' =>
          Step2CaseS();
        case 't' =>
          Step2CaseT();
        case 'g' =>
          matches := EndsThenR("logi", "log");
          if matches {
            Step2Rule(w, 0);
            return;
          }
          Step2None(w);
        case _ =>
          Step2None(w);
      }
    }

    /** step3() */
    method Step3InPlace()
      requires Bounds()
      modifies this`k, this`j, b
      ensures Bounds() && SameOutside(old(b[..])) && Word() == Step3(old(Word()))
    {
      hide Step3, EndsWith, Word, SameOutside, Cut, UpToJ;
      ghost var w := Word();
      var matches: bool;
      LastLetters();
      NothingChanged();
      match At(k) {
        case 'e' =>
          matches := EndsThenR("icate", "ic");
          if matches {
            Step3Rule(w, 0);
            return;
          }
          matches := EndsThenR("ative", "");
          if matches {
            Step3Rule(w, 1);
            return;
          }
          matches := EndsThenR("alize", "al");
          if matches {
            Step3Rule(w, 2);
            return;
          }
          Step3None(w);
        case 'i' =>
          matches := EndsThenR("iciti", "ic");
          if matches {
            Step3Rule(w, 0);
            return;
          }
          Step3None(w);
        case 'l' =>
          matches := EndsThenR("ical", "ic");
          if matches {
            Step3Rule(w, 0);
            return;
          }
          matches := EndsThenR("ful", "");
          if matches {
            Step3Rule(w, 1);
            return;
          }
          Step3None(w);
        case 's' =>
          matches := EndsThenR("ness", "");
          if matches {
            Step3Rule(w, 0);
            return;
          }
          Step3None(w);
        case _ =>
          Step3None(w);
      }
    }

    /** Moves k back over the last n letters. */
    method Shorten(n: nat)
      requires Bounds() && n <= k - k0
      modifies this`k
      ensures Bounds() && k == old(k) - n && Word() == Cut(old(Word()), n)
    {
      CutWord(k - n);
      k := k - n;
    }

    /** Overwrites the last letter. */
    method SetLast(ch: char)
      requires Bounds()
      modifies b
      ensures Bounds() && SameOutside(old(b[..])) && Word() == Cut(old(Word()), 1) + [ch]
    {
      b[k] := ch;
    }

    /** The plural part of step1ab() */
    method Step1aInPlace()
      requires Bounds() && k > k0
      modifies this`k, this`j, b
      ensures Bounds() && SameOutside(old(b[..])) && k <= old(k) && Word() == Step1a(old(Word()))
    {
      hide EndsWith, SameOutside, UpToJ, Cut, Word;
      ghost var w := Word();
      LastLetters();
      NothingChanged();
      if At(k) == 's' {
        var matches := Ends("sses");
        if matches {
          MatchFits(w, "sses");
          Shorten(2);
        } else {
          matches := Ends("ies");
          if matches {
            Setto("i");
          } else if At(k - 1) != 's' {
            Shorten(1);
          }
        }
      }
    }

    /** The last test of step1ab(): a double consonant is halved, a short stem gets its -e back. */
    method RestoreEndInPlace()
      requires Bounds() && j == k < end
      modifies this`k, b
      ensures Bounds() && SameOutside(old(b[..])) && Word() == RestoreEnd(old(Word()))
    {
      hide SameOutside, UpToJ, Measure, EndsDouble, EndsCvc, DoubleC, Cvc;
      NothingChanged();
      WholeWord();
      LastLetters();
      DoubleCIsEndsDouble(k);
      CvcIsEndsCvc(k);
      if DoubleC(k) {
        DoubleLetters(k);
        CutWord(k - 1);
        k := k - 1;
        var ch := At(k);
        if ch == 'l' || ch == 's' || ch == 'z' {
          k := k + 1;
        }
      } else {
        var n := M();
        if n == 1 && Cvc(k) {
          Setto("e");
        }
      }
    }

    lemma DoubleLetters(i: int)
      requires Bounds() && k0 <= i <= end && DoubleC(i)
      ensures i > k0 && At(i) == At(i - 1)
    {
    }

    /** What step1ab() does to a stem that has just lost -ed or -ing; it may grow by one letter. */
    method RestoreInPlace()
      requires Bounds() && j == k < end
      modifies this`k, this`j, b
      ensures Bounds() && SameOutside(old(b[..])) && Word() == Restore(old(Word()))
    {
      hide EndsWith, SameOutside, UpToJ, Word, RestoreEnd, Cut;
      NothingChanged();
      Rejoin(Word(), "at");
      Rejoin(Word(), "bl");
      Rejoin(Word(), "iz");
      var matches := Ends("at");
      if matches {
        Setto("ate");
        return;
      }
      matches := Ends("bl");
      if matches {
        Setto("ble");
        return;
      }
      matches := Ends("iz");
      if matches {
        Setto("ize");
        return;
      }
      RestoreEndInPlace();
    }

    /** The -ed and -ing part of step1ab() */
    method PastTenseInPlace()
      requires Bounds()
      modifies this`k, this`j, b
      ensures Bounds() && SameOutside(old(b[..])) && Word() == PastTense(old(Word()))
    {
      hide EndsWith, SameOutside, UpToJ, HasVowel, Restore;
      NothingChanged();
      var matches := Ends("ed");
      if !matches {
        matches := Ends("ing");
      }
      if matches {
        var vowel := VowelInStem();
        if vowel {
          k := j;
          WholeWord();
          RestoreInPlace();
        }
      }
    }

    /** The -eed, -ed and -ing part of step1ab() */
    method Step1bInPlace()
      requires Bounds()
      modifies this`k, this`j, b
      ensures Bounds() && SameOutside(old(b[..])) && Word() == Step1b(old(Word()))
    {
      hide EndsWith, SameOutside, UpToJ, Measure, PastTense;
      NothingChanged();
      var matches := Ends("eed");
      if matches {
        var n := M();
        MeasureNeedsLetters(UpToJ());
        if n > 0 {
          CutWord(k - 1);
          k := k - 1;
        }
      } else {
        PastTenseInPlace();
      }
    }

    /** step1ab() */
    method Step1abInPlace()
      requires Bounds() && k > k0
      modifies this`k, this`j, b
      ensures Bounds() && SameOutside(old(b[..])) && Word() == Step1b(Step1a(old(Word())))
    {
      hide Word, Step1a, Step1b;
      Step1aInPlace();
      Step1bInPlace();
    }

    /** step1c() */
    method Step1cInPlace()
      requires Bounds()
      modifies this`j, b
      ensures Bounds() && SameOutside(old(b[..])) && Word() == Step1c(old(Word()))
    {
      hide EndsWith, SameOutside, UpToJ, Cut, Word, HasVowel;
      NothingChanged();
      var matches := Ends("y");
      if matches {
        var vowel := VowelInStem();
        if vowel {
          SetLast('i');
        }
      }
    }

    lemma IonStem()
      requires Bounds() && EndsWith(Word(), "ion") && k0 - 1 <= j <= k && UpToJ() == Cut(Word(), 3)
      ensures j >= k0 && (At(j) == 's' || At(j) == 't') <==> EndsWith(UpToJ(), "s") || EndsWith(UpToJ(), "t")
      ensures !EndsWith(Word(), "ou")
    {
      Clash(Word(), "ion", "ou", 0);
      if j >= k0 {
        assert UpToJ()[|UpToJ()| - 1..] == [At(j)];
      }
    }

    /** A suffix of step 4 stands behind j; the measure before it decides. */
    ghost predicate FoundForStep4()
      requires Bounds()
      reads `b, `k, `k0, `end, `j, b
    {
      k0 - 1 <= j <= k && Step4(Word()) == if Measure(UpToJ()) > 1 then UpToJ() else Word()
    }

    /** Rule i of the group stands behind j, so the switch breaks to the final test. */
    lemma BreaksAt(i: nat)
      requires Bounds() && k > k0 && Decides(Step4Rules(FromEnd(Word(), 1)), Word(), i)
      requires k0 - 1 <= j <= k
      requires var suffix := Step4Rules(FromEnd(Word(), 1))[i].suffix;
               suffix != "ion" && |suffix| <= |Word()| && UpToJ() == Cut(Word(), |suffix|)
      ensures FoundForStep4()
    {
      hide Step4, Decides, Step4Rules, UpToJ, Cut;
      Step4Rule(Word(), i);
    }

    /** A test of the switch of step4() that leads to the final one: rule i of the word's group. */
    method EndsThenBreaks(s: string, ghost i: nat) returns (found: bool)
      requires Bounds() && k > k0 && |s| > 0 && s != "ion"
      requires var rules := Step4Rules(FromEnd(Word(), 1));
               i < |rules| && s == rules[i].suffix && forall x :: 0 <= x < i ==> !EndsWith(Word(), rules[x].suffix)
      modifies this`j
      ensures found == EndsWith(Word(), s)
      ensures found ==> FoundForStep4()
    {
      hide Step4, Step4Rules, Word, Cut, UpToJ, FoundForStep4;
      found := Ends(s);
      if found {
        BreaksAt(i);
      }
    }

    /** The case of the switch of step4() for words whose last letter but one is n. */
    method Step4CaseN() returns (found: bool)
      requires Bounds() && k > k0 && At(k - 1) == 'n'
      modifies this`j
      ensures found ==> FoundForStep4()
      ensures !found ==> Step4(Word()) == Word()
    {
      hide Step4, EndsWith, Word, Cut, UpToJ, FoundForStep4;
      ghost var w := Word();
      LastLetters();
      found := EndsThenBreaks("ant", 0);
      if !found {
        found := EndsThenBreaks("ement", 1);
        if !found {
          found := EndsThenBreaks("ment", 2);
          if !found {
            found := EndsThenBreaks("ent", 3);
          }
        }
      }
      if !found {
        Step4None(w);
      }
    }

    /** The case of the switch of step4() for words whose last letter but one is o. */
    method Step4CaseO() returns (found: bool)
      requires Bounds() && k > k0 && At(k - 1) == 'o'
      modifies this`j
      ensures found ==> FoundForStep4()
      ensures !found ==> Step4(Word()) == Word()
    {
      hide Step4, EndsWith, Word, Cut, UpToJ;
      ghost var w := Word();
      LastLetters();
      found := Ends("ion");
      if found {
        Step4Rule(w, 0);
        IonStem();
        found := j >= k0 && (At(j) == 's' || At(j) == 't');
      }
      if !found {
        found := Ends("ou");
        if found {
          BreaksAt(1);
        }
      }
      if !found && !EndsWith(w, "ion") {
        Step4None(w);
      }
    }

    /** The switch of step4(): whether it breaks to the final test, and j for that test. */
    method Step4Suffix() returns (found: bool)
      requires Bounds() && k > k0
      modifies this`j
      ensures found ==> FoundForStep4()
      ensures !found ==> Step4(Word()) == Word()
    {
      hide Step4, EndsWith, Word, Cut, UpToJ, FoundForStep4;
      ghost var w := Word();
      LastLetters();
      match At(k - 1) {
        case 'a' =>
          found := EndsThenBreaks("al", 0);
          if !found {
            Step4None(w);
          }
        case 'c' =>
          found := EndsThenBreaks("ance", 0);
          if !found {
            found := EndsThenBreaks("ence", 1);
          }
          if !found {
            Step4None(w);
          }
        case 'e' =>
          found := EndsThenBreaks("er", 0);
          if !found {
            Step4None(w);
          }
        case 'i' =>
          found := EndsThenBreaks("ic", 0);
          if !found {
            Step4None(w);
          }
        case 'l' =>
          found := EndsThenBreaks("able", 0);
          if !found {
            found := EndsThenBreaks("ible", 1);
          }
          if !found {
            Step4None(w);
          }
        case 'n' =>
          found := Step4CaseN();
        case 'o' =>
          found := Step4CaseO();
        case 's' =>
          found := EndsThenBreaks("ism", 0);
          if !found {
            Step4None(w);
          }
        case 't' =>
          found := EndsThenBreaks("ate", 0);
          if !found {
            found := EndsThenBreaks("iti", 1);
          }
          if !found {
            Step4None(w);
          }
        case 'u' =>
          found := EndsThenBreaks("ous", 0);
          if !found {
            Step4None(w);
          }
        case 'v' =>
          found := EndsThenBreaks("ive", 0);
          if !found {
            Step4None(w);
          }
        case 'z' =>
          found := EndsThenBreaks("ize", 0);
          if !found {
            Step4None(w);
          }
        case _ =>
          Step4None(w);
          found := false;
      }
    }

    /** step4() */
    method Step4InPlace()
      requires Bounds() && k > k0
      modifies this`k, this`j
      ensures Bounds() && k <= old(k) && Word() == Step4(old(Word()))
    {
      hide Step4, Measure;
      var found := Step4Suffix();
      if found {
        var n := M();
        MeasureNeedsLetters(UpToJ());
        if n > 1 {
          k := j;
        }
      }
    }

    lemma FinalE()
      requires Bounds() && EndsWith(Word(), "e")
      ensures Measure(Word()) == Measure(Cut(Word(), 1))
    {
      EndsWithLetter(Word(), "e", 0);
      MeasureOfVowelEnd(Word());
    }

    lemma LastLetterIs(ch: char)
      requires Bounds()
      ensures At(k) == ch <==> EndsWith(Word(), [ch])
    {
      var w := Word();
      assert w[|w| - 1..] == [w[|w| - 1]];
    }

    /** The final -e of step5() */
    method Step5aInPlace()
      requires Bounds()
      modifies this`k, this`j
      ensures Bounds() && k <= old(k) && Word() == Step5a(old(Word()))
      ensures k0 - 1 <= j <= end && Measure(UpToJ()) == Measure(Word())
    {
      hide EndsWith, Measure, EndsCvc, Cvc, UpToJ, Cut;
      j := k;
      WholeWord();
      LastLetterIs('e');
      if At(k) == 'e' {
        FinalE();
        CutWord(k - 1);
        MeasureNeedsLetters(Word());
        var a := M();
        if a == 1 {
          CvcIsEndsCvc(k - 1);
        }
        if a > 1 || (a == 1 && !Cvc(k - 1)) {
          k := k - 1;
        }
      }
    }

    /** step5(); its last test measures up to the j set before the -e went. */
    method Step5InPlace()
      requires Bounds()
      modifies this`k, this`j
      ensures Bounds() && k <= old(k) && Word() == Step5b(Step5a(old(Word())))
    {
      hide EndsWith, Measure, EndsDouble, DoubleC, UpToJ, Cut, Word, Step5a;
      Step5aInPlace();
      WordIs();
      Length();
      LastLetterIs('l');
      DoubleCIsEndsDouble(k);
      CutWord(k - 1);
      if At(k) == 'l' && DoubleC(k) {
        MeasureNeedsLetters(Word());
        var n := M();
        if n > 1 {
          k := k - 1;
          WordIs();
        }
      }
    }

    /** The steps that stem() skips when step1ab() has left one letter. */
    method LaterSteps()
      requires Bounds() && k > k0
      modifies this`k, this`j, b
      ensures Bounds() && SameOutside(old(b[..]))
      ensures Word() == Step5b(Step5a(Step4(Step3(Step2(Step1c(old(Word())))))))
    {
      hide Step1c, Step2, Step3, Step4, Step5a, Step5b, Word;
      Length();
      EnoughLetters(Word());
      Step1cInPlace();
      Length();
      Step2InPlace();
      Length();
      Step3InPlace();
      Length();
      Step4InPlace();
      Step5InPlace();
    }

    /** The body of stem() for words of at least three letters. */
    method AllSteps()
      requires Bounds() && k > k0 + 1
      modifies this`k, this`j, b
      ensures Bounds() && SameOutside(old(b[..])) && Word() == Stem(old(Word()))
    {
      hide Step1a, Step1b, Step1c, Step2, Step3, Step4, Step5a, Step5b, Word;
      Length();
      Step1abInPlace();
      Length();
      if k > k0 {
        LaterSteps();
      }
    }

    /**
    stem(): stems p[i..to] and returns where the result ends. The result is the stem by
    the rules, it is not empty and not longer than the word, and nothing around the word
    is touched.
    */
    method StemInPlace(p: array<char>, i: nat, to: int) returns (last: int)
      requires i - 1 <= to < p.Length
      modifies this, p
      ensures i <= to ==> i <= last <= to
      ensures i - 1 <= last <= to && p[i..last + 1] == Stem(old(p[i..to + 1]))
      ensures p[..i] == old(p[..i]) && p[to + 1..] == old(p[to + 1..])
    {
      hide Stem, Word, SameOutside;
      b := p;
      k := to;
      k0 := i;
      end := to;
      ShortStem(p[i..if to < i + 2 then to + 1 else i]);
      if k <= k0 + 1 {
        return k;
      }
      WordIs();
      AllSteps();
      WordIs();
      OutsideIs(old(p[..]));
      return k;
    }

    lemma OutsideIs(before: seq<char>)
      requires SameOutside(before)
      ensures |before| == b.Length && 0 <= k0 <= end < b.Length
      ensures b[..k0] == before[..k0] && b[end + 1..] == before[end + 1..]
    {
    }
  }
}
