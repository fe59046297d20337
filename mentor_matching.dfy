/**
 * Mentor matching (mentors/views.py, `mentorship_list_view` and
 * `mentorship_detail_view`): skill tokens, the skill-overlap score, and the
 * ranked mentor list a job seeker browses.
 */
module MentorMatching {
  import opened Wrappers
  import opened Text
  import opened AccountModels
  import opened MentorModels

  /** What a token looks like: non-empty, stripped, no ASCII capitals. */
  predicate IsToken(t: string) {
    && t != []
    && NoEdgeSpace(Python, t)
    && forall k :: 0 <= k < |t| ==> !IsAsciiUpper(t[k])
  }

  /** `[e.strip().lower() for e in pieces if e.strip()]`, in order. */
  function TokensOf(pieces: seq<string>): (ts: seq<string>)
    ensures |ts| <= |pieces|
    ensures forall k :: 0 <= k < |ts| ==> IsToken(ts[k])
    ensures (forall k :: 0 <= k < |pieces| ==> AllSpace(Python, pieces[k])) ==> ts == []
  {
    if pieces == [] then []
    else
      var t := Strip(Python, pieces[0]);
      var rest := TokensOf(pieces[1..]);
      if t != [] then
        LowerKeepsSpaces(Python, t);
        [Lower(t)] + rest
      else rest
  }

  /** The tokens of a comma-separated field. */
  function Tokens(text: string): seq<string> {
    TokensOf(Split(text, ","))
  }

  /**
   * Lines 39-40 and 93-94: the mentee's raw skill pieces, read through the
   * attribute `relatedName` of the user; no such attribute, no profile or
   * an empty skills field gives no pieces.
   */
  function MenteeSkillPieces(profiles: map<UserId, JobSeekerProfile>, user: UserId, relatedName: string)
    : seq<string>
  {
    match RelatedProfile(profiles, user, relatedName)
    case None => []
    case Some(p) => if p.skills != "" then Split(p.skills, ",") else []
  }

  /** The pieces exactly as the views read them: through `youth_profile`. */
  function MenteeSkillPiecesAsWritten(profiles: map<UserId, JobSeekerProfile>, user: UserId): seq<string> {
    MenteeSkillPieces(profiles, user, "youth_profile")
  }

  /**
   * As written, no user ever has skill pieces: User has no attribute
   * `youth_profile`, so every mentor scores 0 for every mentee.
   */
  lemma AsWrittenMenteeHasNoSkills(profiles: map<UserId, JobSeekerProfile>, user: UserId, expertise: string)
    ensures MenteeSkillPiecesAsWritten(profiles, user) == []
    ensures MatchScore(TokensOf(MenteeSkillPiecesAsWritten(profiles, user)), expertise).Percent() == 0.0
  {
  }

  /** The mentee's tokens as the views compute them, through `youth_profile`. */
  function MenteeTokensAsWritten(profiles: map<UserId, JobSeekerProfile>, user: UserId): seq<string> {
    TokensOf(MenteeSkillPiecesAsWritten(profiles, user))
  }

  /** The mentee's tokens, read through the relation the profile does have. */
  function MenteeTokens(profiles: map<UserId, JobSeekerProfile>, user: UserId): seq<string> {
    TokensOf(MenteeSkillPieces(profiles, user, JobSeekerRelation))
  }

  /** Read through `job_seeker_profile`, the tokens are those of the profile's skills. */
  lemma MenteeTokensFromProfile(profiles: map<UserId, JobSeekerProfile>, user: UserId)
    ensures user in profiles ==> MenteeTokens(profiles, user) == Tokens(profiles[user].skills)
    ensures user !in profiles ==> MenteeTokens(profiles, user) == []
  {
    if user in profiles && profiles[user].skills == "" {
      assert Split("", ",") == [[]];
      assert Strip(Python, []) == [];
    }
  }

  /** `skill in exp or exp in skill`. */
  predicate Partners(skill: string, exp: string) {
    Contains(exp, skill) || Contains(skill, exp)
  }

  /** `any(skill in exp or exp in skill for exp in expertise)`. */
  predicate HasPartner(skill: string, expertise: seq<string>) {
    exists k :: 0 <= k < |expertise| && Partners(skill, expertise[k])
  }

  /** `sum(1 for skill in skills if any(...))`. */
  function MatchCount(skills: seq<string>, expertise: seq<string>): (n: nat)
    ensures n <= |skills|
    ensures n == 0 <==> forall k :: 0 <= k < |skills| ==> !HasPartner(skills[k], expertise)
    ensures n == |skills| <==> forall k :: 0 <= k < |skills| ==> HasPartner(skills[k], expertise)
  {
    if skills == [] then 0
    else
      var n := MatchCount(skills[1..], expertise);
      assert forall k :: 1 <= k < |skills| ==> skills[k] == skills[1..][k - 1];
      (if HasPartner(skills[0], expertise) then 1 else 0) + n
  }

  /** The score of one mentor for the mentee's tokens (lines 45-51, 96-102). */
  function MatchScore(menteeTokens: seq<string>, expertiseAreas: string): (s: Score)
    ensures s.total == |menteeTokens|
    ensures s.matches <= s.total
    ensures s.matches == 0 <==>
              forall k :: 0 <= k < |menteeTokens| ==> !HasPartner(menteeTokens[k], Tokens(expertiseAreas))
    ensures Tokens(expertiseAreas) == [] ==> s.matches == 0
  {
    Score(MatchCount(menteeTokens, Tokens(expertiseAreas)), |menteeTokens|)
  }

  /** Every match score lies between 0 and 100 inclusive. */
  lemma ScoreInRange(s: Score)
    requires s.matches <= s.total
    ensures 0.0 <= s.Percent() <= 100.0
  {
    if s.total != 0 {
      QuotientInUnit(s.matches as real, s.total as real);
    }
  }

  /** A part over a positive whole lies between 0 and 1. */
  lemma QuotientInUnit(part: real, whole: real)
    requires 0.0 <= part <= whole && 0.0 < whole
    ensures 0.0 <= part / whole <= 1.0
  {
    var q := part / whole;
    assert q * whole == part;
    assert (1.0 - q) * whole == whole - part;
  }

  /** A mentor whose expertise is exactly the mentee's skills scores 100. */
  lemma IdenticalSkillsScoreFull(menteeTokens: seq<string>, expertiseAreas: string)
    requires menteeTokens != [] && Tokens(expertiseAreas) == menteeTokens
    ensures MatchScore(menteeTokens, expertiseAreas).Percent() == 100.0
  {
    SelfMatchCount(menteeTokens);
    FullScore(MatchScore(menteeTokens, expertiseAreas));
  }

  /** All tokens matched gives 100. */
  lemma FullScore(s: Score)
    requires 0 < s.total && s.matches == s.total
    ensures s.Percent() == 100.0
  {
    var n := s.total as real;
    assert n / n == 1.0;
  }

  /** Every token partners itself. */
  lemma SelfMatchCount(tokens: seq<string>)
    ensures MatchCount(tokens, tokens) == |tokens|
  {
    forall k | 0 <= k < |tokens|
      ensures HasPartner(tokens[k], tokens)
    {
      ContainsSelf(tokens[k]);
      assert Partners(tokens[k], tokens[k]);
    }
  }

  /** One row of the mentor list: the mentor, its place in the query result, its score. */
  datatype MentorEntry = MentorEntry(mentor: Mentor, position: nat, score: Score, hasActiveRequest: bool)

  /** The mentee already has a pending or accepted request with this mentor. */
  predicate HasOpenRequest(requests: seq<MentorshipRequest>, mentee: UserId, mentor: MentorId) {
    exists k :: 0 <= k < |requests| && requests[k].mentee == mentee && requests[k].mentor == mentor
                && requests[k].status.IsOpen()
  }

  function EntryFor(m: Mentor, position: nat, tokens: seq<string>, requests: seq<MentorshipRequest>, mentee: UserId)
    : MentorEntry
  {
    MentorEntry(m, position, MatchScore(tokens, m.expertiseAreas), HasOpenRequest(requests, mentee, m.id))
  }

  /** The rows the append loop builds, in query order. */
  function Entries(mentors: seq<Mentor>, tokens: seq<string>, requests: seq<MentorshipRequest>, mentee: UserId)
    : (es: seq<MentorEntry>)
    ensures |es| == |mentors|
  {
    seq(|mentors|, k requires 0 <= k < |mentors| => EntryFor(mentors[k], k, tokens, requests, mentee))
  }

  /** `Mentor.objects.filter(status='active', is_verified=True)`, in table order. */
  function Browsable(mentors: seq<Mentor>): (r: seq<Mentor>)
    ensures forall k :: 0 <= k < |r| ==> r[k].status == Active && r[k].isVerified
    ensures forall m :: m in mentors && m.status == Active && m.isVerified ==> m in r
    ensures forall m :: m in r ==> m in mentors
  {
    if mentors == [] then []
    else
      var rest := Browsable(mentors[1..]);
      assert forall m :: m in mentors[1..] ==> m in mentors;
      if mentors[0].status == Active && mentors[0].isVerified then [mentors[0]] + rest else rest
  }

  /**
   * The filter keeps table order: it works row by row, keeping a row
   * exactly when that mentor is active and verified.
   */
  lemma {:induction false} BrowsableAppend(a: seq<Mentor>, b: seq<Mentor>)
    ensures Browsable(a + b) == Browsable(a) + Browsable(b)
  {
    if a != [] {
      assert (a + b)[1..] == a[1..] + b;
      BrowsableAppend(a[1..], b);
    } else {
      assert a + b == b;
    }
  }

  /** One row passes the filter exactly when that mentor is active and verified. */
  lemma BrowsableOne(m: Mentor)
    ensures Browsable([m]) == (if m.status == Active && m.isVerified then [m] else [])
  {
    assert [m][1..] == [];
  }

  /** The sort key: the score before rounding. */
  function Key(e: MentorEntry): real {
    e.score.Percent()
  }

  /** `a` comes before `b` in a stable sort by descending score. */
  predicate RankedBefore(a: MentorEntry, b: MentorEntry) {
    Key(a) > Key(b) || (Key(a) == Key(b) && a.position < b.position)
  }

  /** Sorted by descending score, ties in query order. */
  predicate Ranked(s: seq<MentorEntry>) {
    forall i, j :: 0 <= i < j < |s| ==> RankedBefore(s[i], s[j])
  }

  predicate PositionsIncreasing(s: seq<MentorEntry>) {
    forall i, j :: 0 <= i < j < |s| ==> s[i].position < s[j].position
  }

  /** Places `e` in front of the first entry that does not outscore it. */
  function InsertRanked(e: MentorEntry, t: seq<MentorEntry>): (r: seq<MentorEntry>)
    ensures multiset(r) == multiset{e} + multiset(t)
  {
    if t == [] || Key(t[0]) <= Key(e) then [e] + t
    else
      assert t == [t[0]] + t[1..];
      [t[0]] + InsertRanked(e, t[1..])
  }

  /**
   * `mentor_list.sort(key=score, reverse=True)`: Python's sort is stable
   * also with `reverse=True`. This is a reference insertion sort.
   */
  function SortByScore(s: seq<MentorEntry>): (r: seq<MentorEntry>)
    ensures multiset(r) == multiset(s)
  {
    if s == [] then []
    else
      assert s == [s[0]] + s[1..];
      InsertRanked(s[0], SortByScore(s[1..]))
  }

  lemma {:induction false} InsertRankedKeepsRanked(e: MentorEntry, t: seq<MentorEntry>)
    requires Ranked(t)
    requires forall x :: x in t ==> e.position < x.position
    ensures Ranked(InsertRanked(e, t))
  {
    if t == [] || Key(t[0]) <= Key(e) {
      var r := [e] + t;
      forall j | 1 <= j < |r|
        ensures RankedBefore(e, r[j])
      {
        assert r[j] == t[j - 1];
        if j > 1 { assert RankedBefore(t[0], t[j - 1]); }
      }
    } else {
      InsertRankedKeepsRanked(e, t[1..]);
      HeadOutranksInsert(e, t);
      var tail := InsertRanked(e, t[1..]);
      var r := [t[0]] + tail;
      forall i, j | 0 <= i < j < |r|
        ensures RankedBefore(r[i], r[j])
      {
        assert r[j] == tail[j - 1];
        if i > 0 { assert r[i] == tail[i - 1]; }
      }
    }
  }

  /** When `e` goes behind the head of a ranked list, the head outranks all that follows it. */
  lemma HeadOutranksInsert(e: MentorEntry, t: seq<MentorEntry>)
    requires t != [] && Ranked(t) && Key(t[0]) > Key(e)
    ensures forall j :: 0 <= j < |InsertRanked(e, t[1..])| ==> RankedBefore(t[0], InsertRanked(e, t[1..])[j])
  {
    var tail := InsertRanked(e, t[1..]);
    forall j | 0 <= j < |tail|
      ensures RankedBefore(t[0], tail[j])
    {
      assert tail[j] in multiset(tail);
      if tail[j] != e {
        assert tail[j] in multiset(t[1..]);
        var i :| 0 <= i < |t[1..]| && t[1..][i] == tail[j];
        assert RankedBefore(t[0], t[i + 1]);
      }
    }
  }

  /** Sorting entries built in query order ranks them: descending score, ties in query order. */
  lemma {:induction false} SortByScoreRanked(s: seq<MentorEntry>)
    requires PositionsIncreasing(s)
    ensures Ranked(SortByScore(s))
  {
    if s != [] {
      SortByScoreRanked(s[1..]);
      var sorted := SortByScore(s[1..]);
      forall x | x in sorted
        ensures s[0].position < x.position
      {
        assert x in multiset(s[1..]);
      }
      InsertRankedKeepsRanked(s[0], sorted);
    }
  }

  /** When every score is equal the sort leaves the list as it was. */
  lemma {:induction false} SortByScoreTies(s: seq<MentorEntry>)
    requires forall i :: 0 <= i < |s| ==> Key(s[i]) == Key(s[0])
    ensures SortByScore(s) == s
  {
    if s != [] {
      SortByScoreTies(s[1..]);
      assert s == [s[0]] + s[1..];
    }
  }

  /** A ranked list is in non-increasing score order. */
  lemma RankedIsNonIncreasing(s: seq<MentorEntry>, i: nat, j: nat)
    requires Ranked(s) && i <= j < |s|
    ensures Key(s[i]) >= Key(s[j])
  {
    if i < j { assert RankedBefore(s[i], s[j]); }
  }

  /**
   * `mentorship_list_view` (lines 14-62) as written: None when the user is
   * not a job seeker (the redirect); otherwise every active, verified mentor
   * once. The mentee's skills are read through `youth_profile`, so every
   * score is 0 and the stable sort leaves the list in table order.
   */
  method MentorshipList(role: Role, user: UserId, profiles: map<UserId, JobSeekerProfile>,
                        mentors: seq<Mentor>, requests: seq<MentorshipRequest>)
    returns (r: Option<seq<MentorEntry>>)
    ensures r.None? <==> role != Youth
    ensures r.Some? ==> r.value == Entries(Browsable(mentors), [], requests, user)
    ensures r.Some? ==> forall k :: 0 <= k < |r.value| ==> Key(r.value[k]) == 0.0
  {
    if role != Youth {
      return None;
    }
    var visible := Browsable(mentors);
    var tokens := MenteeTokensAsWritten(profiles, user);
    AsWrittenMenteeHasNoSkills(profiles, user, "");
    var ranked := RankMentors(visible, tokens, requests, user);
    NoTokensKeepsTableOrder(visible, requests, user);
    r := Some(ranked);
  }

  /**
   * The list as the view means it, with the mentee's tokens read through
   * `job_seeker_profile`: every active, verified mentor once, ranked by
   * descending score, ties in table order.
   */
  method MentorshipListCorrected(role: Role, user: UserId, profiles: map<UserId, JobSeekerProfile>,
                                 mentors: seq<Mentor>, requests: seq<MentorshipRequest>)
    returns (r: Option<seq<MentorEntry>>)
    ensures r.None? <==> role != Youth
    ensures r.Some? ==>
              var tokens := MenteeTokens(profiles, user);
              && multiset(r.value) == multiset(Entries(Browsable(mentors), tokens, requests, user))
              && Ranked(r.value)
  {
    if role != Youth {
      return None;
    }
    var ranked := RankMentors(Browsable(mentors), MenteeTokens(profiles, user), requests, user);
    r := Some(ranked);
  }

  /** The append loop over the visible mentors, then the sort by score. */
  method RankMentors(visible: seq<Mentor>, tokens: seq<string>, requests: seq<MentorshipRequest>, user: UserId)
    returns (ranked: seq<MentorEntry>)
    ensures ranked == SortByScore(Entries(visible, tokens, requests, user))
    ensures multiset(ranked) == multiset(Entries(visible, tokens, requests, user))
    ensures Ranked(ranked)
  {
    ghost var target := Entries(visible, tokens, requests, user);
    var list: seq<MentorEntry> := [];
    var i := 0;
    while i < |visible|
      invariant 0 <= i <= |visible|
      invariant list == target[..i]
    {
      assert target[..i + 1] == target[..i] + [target[i]];
      list := list + [EntryFor(visible[i], i, tokens, requests, user)];
      i := i + 1;
    }
    assert list == target;
    SortByScoreRanked(list);
    ranked := SortByScore(list);
  }

  /** With no skill tokens every score is 0, and the list keeps table order. */
  lemma NoTokensKeepsTableOrder(mentors: seq<Mentor>, requests: seq<MentorshipRequest>, mentee: UserId)
    ensures SortByScore(Entries(mentors, [], requests, mentee)) == Entries(mentors, [], requests, mentee)
  {
    SortByScoreTies(Entries(mentors, [], requests, mentee));
  }
}
