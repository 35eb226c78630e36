/**
The enclave's query tokens and the growing array they are kept in.
*/
module TokenVectors {
  import opened IntVectors

  /** A parsed token; only words use the fields after `kind`. */
  datatype IeeToken = IeeToken(kind: char, counter: nat, idf: real, key: seq<Byte>, docs: seq<int>,
                               frequencies: seq<int>)

  const MAX_QUERY_TOKENS := 25

  class VecToken {
    var elems: array<IeeToken>
    var maxSize: nat
    var counter: nat
    ghost var writes: seq<(nat, nat)> // history: the slots written by SetPosting, token and posting

    ghost predicate Valid()
      reads this
    {
      elems.Length == maxSize && counter <= maxSize && maxSize > 0
    }

    ghost function Contents(): (s: seq<IeeToken>)
      requires Valid()
      reads this, elems
    {
      elems[..counter]
    }

    /** vt_init */
    constructor (maxSize: nat)
      requires maxSize > 0
      ensures Valid() && fresh(elems) && Contents() == [] && writes == []
    {
      writes := [];
      this.counter := 0;
      this.maxSize := maxSize;
      this.elems := new IeeToken[maxSize];
    }

    /** vt_grow: twice the room, the same contents. */
    method Grow()
      requires Valid()
      modifies this`elems, this`maxSize
      ensures Valid() && fresh(elems) && maxSize == 2 * old(maxSize)
      ensures Contents() == old(Contents())
    {
      var n := new IeeToken[maxSize * 2];
      forall i | 0 <= i < maxSize {
        n[i] := elems[i];
      }
      elems := n;
      maxSize := maxSize * 2;
    }

    /** vt_push_back */
    method PushBack(e: IeeToken)
      requires Valid()
      modifies this`elems, this`maxSize, this`counter, elems
      ensures Valid() && (elems == old(elems) || fresh(elems))
      ensures Contents() == old(Contents()) + [e]
    {
      if counter == maxSize {
        Grow();
      }
      elems[counter] := e;
      counter := counter + 1;
    }

    /** vt_pop_back */
    method PopBack()
      requires Valid()
      modifies this`counter
      ensures Valid()
      ensures Contents() == if old(counter) > 0 then old(Contents())[..old(counter) - 1] else []
    {
      if counter > 0 {
        counter := counter - 1;
      }
    }

    /** vt_peek_back */
    method PeekBack() returns (e: IeeToken)
      requires Valid() && counter > 0
      ensures e == Contents()[counter - 1]
    {
      e := elems[counter - 1];
    }

    /** The docs and frequencies arrays of token i are filled in place. */
    method SetPosting(i: nat, c: nat, doc: int, frequency: int)
      requires Valid() && i < counter
      requires c < |elems[i].docs| && c < |elems[i].frequencies|
      modifies elems, this`writes
      ensures Valid() && writes == old(writes) + [(i, c)]
      ensures var t := old(Contents())[i];
              Contents() == old(Contents())[i := t.(docs := t.docs[c := doc],
                                                    frequencies := t.frequencies[c := frequency])]
    {
      var t := elems[i];
      elems[i] := t.(docs := t.docs[c := doc], frequencies := t.frequencies[c := frequency]);
      writes := writes + [(i, c)];
    }

    /** The idf of token i is set in place. */
    method SetIdf(i: nat, idf: real)
      requires Valid() && i < counter
      modifies elems
      ensures Valid()
      ensures Contents() == old(Contents())[i := old(Contents())[i].(idf := idf)]
    {
      elems[i] := elems[i].(idf := idf);
    }
  }
}
