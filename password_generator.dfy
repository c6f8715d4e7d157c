/**
 * The random string generator (class PasswordGenerator). Each position is
 * drawn from the pool by an index in [0, |pool|); which index the random
 * source yields is a nondeterministic choice, so every property below holds
 * for every sequence of draws.
 */
module PasswordGenerator {

  /** Every index drawn lies inside the pool. */
  predicate IndicesIn(pool: string, draws: seq<nat>)
  {
    forall j :: 0 <= j < |draws| ==> draws[j] < |pool|
  }

  /** password is the string of the pool characters at the drawn indices, in draw order. */
  predicate DrawnFrom(password: string, pool: string, draws: seq<nat>)
  {
    && |draws| == |password|
    && IndicesIn(pool, draws)
    && forall j :: 0 <= j < |password| ==> password[j] == pool[draws[j]]
  }

  /** Every character of s occurs in the pool. */
  predicate Over(s: string, pool: string)
  {
    forall j :: 0 <= j < |s| ==> s[j] in pool
  }

  /**
   * generatePassword: appends one pool character per iteration while the
   * counter is below length; a non-positive length gives the empty string.
   * Drawing from an empty pool throws, so a positive length needs a non-empty pool.
   */
  method GeneratePassword(length: int, validChars: string) returns (password: string, ghost draws: seq<nat>)
    requires length <= 0 || |validChars| > 0
    ensures |password| == if length < 0 then 0 else length
    ensures Over(password, validChars)
    ensures DrawnFrom(password, validChars, draws)
  {
    var sb := "";
    draws := [];
    var i := 0;
    while i < length
      invariant 0 <= i <= if length < 0 then 0 else length
      invariant |sb| == i
      invariant DrawnFrom(sb, validChars, draws)
    {
      var randomIndex :| 0 <= randomIndex < |validChars|;
      sb := sb + [validChars[randomIndex]];
      draws := draws + [randomIndex];
      i := i + 1;
    }
    password := sb;
  }

  /** The index of the first occurrence of c in pool. */
  function IndexOf(pool: string, c: char): (k: nat)
    requires c in pool
    ensures k < |pool| && pool[k] == c
    ensures forall j :: 0 <= j < k ==> pool[j] != c
  {
    if pool[0] == c then 0 else 1 + IndexOf(pool[1..], c)
  }

  /** The draws that make the generator produce s. */
  function DrawsFor(pool: string, s: string): (draws: seq<nat>)
    requires Over(s, pool)
  {
    if |s| == 0 then [] else DrawsFor(pool, s[..|s| - 1]) + [IndexOf(pool, s[|s| - 1])]
  }

  /**
   * Every string over the pool is a possible password: the draws DrawsFor(pool, s)
   * all lie in range and select exactly s.
   */
  lemma {:induction false} EveryPasswordPossible(pool: string, s: string)
    requires Over(s, pool)
    ensures DrawnFrom(s, pool, DrawsFor(pool, s))
  {
    if |s| > 0 {
      var n := |s| - 1;
      EveryPasswordPossible(pool, s[..n]);
      var d := DrawsFor(pool, s);
      assert d[..n] == DrawsFor(pool, s[..n]);
      forall j | 0 <= j < |s|
        ensures d[j] < |pool| && s[j] == pool[d[j]]
      {
        if j < n {
          assert s[..n][j] == s[j];
        }
      }
    }
  }
}
