/** Slicing identities over sequences of any element type, proved once here
    so that the proofs about lines need not re-derive them. */
module SeqFacts {

  lemma DropTake<T>(s: seq<T>, h: nat)
    requires 1 <= h <= |s|
    ensures s[..h][0] == s[0]
    ensures s[..h][1..] == s[1..][..h - 1]
    ensures s[h..] == s[1..][h - 1..]
  {
  }

  lemma DropDrop<T>(s: seq<T>, i: nat)
    requires i < |s|
    ensures s[i..][0] == s[i]
    ensures s[i..][1..] == s[i + 1..]
  {
  }

  lemma TakeAll<T>(s: seq<T>)
    ensures s[..|s|] == s && s[..0] == [] && s[0..] == s
  {
  }

  lemma TakeSnoc<T>(s: seq<T>, i: nat)
    requires i < |s|
    ensures s[..i + 1] == s[..i] + [s[i]]
    ensures s[..i + 1][..i] == s[..i]
  {
  }

  lemma ConcatAssoc<T>(a: seq<T>, b: seq<T>, c: seq<T>)
    ensures (a + b) + c == a + (b + c)
  {
  }

  lemma ConcatEmpty<T>(a: seq<T>, e: seq<T>, b: seq<T>)
    requires e == []
    ensures a + e + b == a + b
  {
  }
}
