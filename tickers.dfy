/** The ticker universe: the DAX, MDAX and SDAX constituent lists, every symbol
    given the Xetra suffix ".DE" unless it already carries it, duplicates collapsed. */
module Tickers {

  const Suffix: string := ".DE"

  predicate OccursAt(s: string, sub: string, i: int)
  {
    0 <= i <= |s| - |sub| && s[i..i + |sub|] == sub
  }

  /** Python's `sub in s` on strings: sub occurs somewhere in s. */
  predicate Contains(s: string, sub: string)
  {
    exists i | 0 <= i <= |s| :: OccursAt(s, sub, i)
  }

  /** One raw symbol in canonical form: a symbol that already contains ".DE" is
      kept as it is, any other has ".DE" appended. */
  function Normalise(x: string): (r: string)
    ensures Contains(r, Suffix)
    ensures Contains(x, Suffix) ==> r == x
    ensures !Contains(x, Suffix) ==> r == x + Suffix
  {
    if Contains(x, Suffix) then x
    else
      assert OccursAt(x + Suffix, Suffix, |x|);
      x + Suffix
  }

  /** Normalising twice is normalising once. */
  lemma NormaliseIdempotent(x: string)
    ensures Normalise(Normalise(x)) == Normalise(x)
  {
  }

  /** The set the handler builds from the three scraped constituent lists. */
  function Universe(dax: seq<string>, mdax: seq<string>, sdax: seq<string>): (r: set<string>)
    ensures forall t :: t in r ==> Contains(t, Suffix)
    ensures forall x :: x in dax + mdax + sdax ==> Normalise(x) in r
    ensures forall t :: t in r ==> exists x :: x in dax + mdax + sdax && t == Normalise(x)
  {
    set x | x in dax + mdax + sdax :: Normalise(x)
  }

  /** The universe is closed under normalisation: resolving it again yields it back. */
  lemma {:induction false} UniverseNormalised(dax: seq<string>, mdax: seq<string>, sdax: seq<string>)
    ensures (set t | t in Universe(dax, mdax, sdax) :: Normalise(t)) == Universe(dax, mdax, sdax)
  {
    var u := Universe(dax, mdax, sdax);
    forall t | t in u ensures Normalise(t) == t {
      var x :| x in dax + mdax + sdax && t == Normalise(x);
      NormaliseIdempotent(x);
    }
  }

  /** Each list contributes to the universe independently: the universe of the
      three lists is the union of the universes of each. */
  lemma UniverseIsUnion(dax: seq<string>, mdax: seq<string>, sdax: seq<string>)
    ensures Universe(dax, mdax, sdax) == Universe(dax, [], []) + Universe(mdax, [], []) + Universe(sdax, [], [])
  {
  }
}
