/** The pop-up listing the profiles an `@` mention can complete to. */
module MentionList {
  import opened Wrappers
  import Lists
  import Text

  datatype Profile = Profile(id: string, email: string)

  function EmailQuery(term: string): Profile -> bool {
    (p: Profile) => Text.MatchesSearch(p.email, term)
  }

  /** `filteredProfiles`: the profiles whose e-mail contains the term,
      ignoring case. */
  function Matching(profiles: seq<Profile>, term: string): seq<Profile> {
    Lists.Filter(profiles, EmailQuery(term))
  }

  /** The pop-up: nothing when no profile matches, otherwise the matches. */
  function Rendered(profiles: seq<Profile>, term: string): (r: Option<seq<Profile>>)
    ensures r.None? <==> Matching(profiles, term) == []
    ensures r.Some? ==> r.value == Matching(profiles, term)
  {
    var m := Matching(profiles, term);
    if |m| == 0 then None else Some(m)
  }

  /** The matches are exactly the profiles whose e-mail contains the
      term, in their original order. */
  lemma MatchingExactly(profiles: seq<Profile>, term: string)
    ensures forall p :: p in Matching(profiles, term) <==> p in profiles && Text.MatchesSearch(p.email, term)
    ensures Lists.IsSubsequence(Matching(profiles, term), profiles)
  {
    assert forall p :: EmailQuery(term)(p) == Text.MatchesSearch(p.email, term);
    Lists.FilterIsSubsequence(profiles, EmailQuery(term));
  }

  /** Right after the `@` every profile is offered, and the pop-up is
      hidden only when there are no profiles at all. */
  lemma EmptyTermOffersAll(profiles: seq<Profile>)
    ensures Matching(profiles, "") == profiles
    ensures Rendered(profiles, "").None? <==> profiles == []
  {
    forall i | 0 <= i < |profiles|
      ensures EmailQuery("")(profiles[i])
    {
      Text.EmptySearchMatches(profiles[i].email);
    }
    Lists.FilterKeepsAll(profiles, EmailQuery(""));
  }
}
