/** The search term that the tool sends to the search endpoint, before it is
    percent-encoded: the target word as a hashtag, with reposts excluded. */
module SearchQuery {

  datatype Option<T> = None | Some(value: T)

  /** Appended to every search term so that reposts are not returned. */
  const ExcludeReposts: string := " exclude:retweets"

  /** The search term for a target word. */
  function SearchTerm(word: string): (q: string)
    ensures |q| == 1 + |word| + |ExcludeReposts|
    ensures q[0] == '#'
  {
    "#" + word + ExcludeReposts
  }

  /** Reads the target word back out of a search term, if the term has the
      shape that SearchTerm produces. */
  function TargetWord(q: string): (w: Option<string>)
  {
    if |q| >= 1 + |ExcludeReposts| && q[0] == '#' && q[|q| - |ExcludeReposts|..] == ExcludeReposts
    then Some(q[1..|q| - |ExcludeReposts|])
    else None
  }

  /** The word can always be recovered from its search term. */
  lemma TargetWordOfSearchTerm(word: string)
    ensures TargetWord(SearchTerm(word)) == Some(word)
  {
    var q := SearchTerm(word);
    assert q[|q| - |ExcludeReposts|..] == ExcludeReposts;
    assert q[1..|q| - |ExcludeReposts|] == word;
  }

  /** Every term that TargetWord accepts is the search term of the word it
      reads: the two functions are inverse on exactly the well-formed terms. */
  lemma SearchTermOfTargetWord(q: string)
    ensures TargetWord(q).Some? <==> exists w :: SearchTerm(w) == q
    ensures TargetWord(q).Some? ==> SearchTerm(TargetWord(q).value) == q
  {
    if TargetWord(q).Some? {
      var w := TargetWord(q).value;
      assert q == q[..1] + q[1..|q| - |ExcludeReposts|] + q[|q| - |ExcludeReposts|..];
      assert SearchTerm(w) == q;
    } else {
      forall w | SearchTerm(w) == q
        ensures false
      {
        TargetWordOfSearchTerm(w);
      }
    }
  }

  /** Distinct target words give distinct search terms. */
  lemma SearchTermInjective(a: string, b: string)
    ensures SearchTerm(a) == SearchTerm(b) ==> a == b
  {
    TargetWordOfSearchTerm(a);
    TargetWordOfSearchTerm(b);
  }
}
