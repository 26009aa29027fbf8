/** The member service's list and name search, with the list the backend returns
    for `GET /users` given as `fetched`. */
module MemberService {
  import opened Seqs
  import opened Text
  import opened Members

  /** How many members the service hands out at most. */
  const Limit: nat := 10

  /** `getAllMembers`: the first ten fetched members. */
  function GetAllMembers(fetched: seq<Member>): seq<Member>
  {
    Take(fetched, Limit)
  }

  /** The lower-cased query occurs in the lower-cased first or last name; the e-mail
      is not searched. */
  predicate NameMatches(m: Member, name: string)
  {
    Includes(ToLower(m.firstName), ToLower(name)) || Includes(ToLower(m.lastName), ToLower(name))
  }

  /** `searchMembersByName`: a blank query gives the first ten members; any other
      query, untrimmed, filters those ten by name and keeps at most ten results. */
  function SearchMembersByName(fetched: seq<Member>, name: string): seq<Member>
  {
    if IsBlank(name) then Take(GetAllMembers(fetched), Limit)
    else Take(Filter(GetAllMembers(fetched), (m: Member) => NameMatches(m, name)), Limit)
  }

  /** The list is the first min(10, n) fetched members, in order. */
  lemma GetAllMembersSpec(fetched: seq<Member>)
    ensures |GetAllMembers(fetched)| == if |fetched| < 10 then |fetched| else 10
    ensures GetAllMembers(fetched) == fetched[..|GetAllMembers(fetched)|]
  {
  }

  /** A blank or whitespace-only query gives the plain list. */
  lemma BlankSearchIsList(fetched: seq<Member>, name: string)
    requires forall i :: 0 <= i < |name| ==> IsJsWhitespace(name[i])
    ensures SearchMembersByName(fetched, name) == GetAllMembers(fetched)
  {
    BlankIffAllWhitespace(name);
  }

  /** A search returns at most ten members, keeps the list's order, and each result
      has the query in its first or last name (for a query that is not blank). The
      final limit never cuts anything: every matching member among the first ten is
      returned. */
  lemma {:induction false} SearchSpec(fetched: seq<Member>, name: string)
    ensures |SearchMembersByName(fetched, name)| <= 10
    ensures IsSubsequence(SearchMembersByName(fetched, name), GetAllMembers(fetched))
    ensures !IsBlank(name) ==> forall m :: m in SearchMembersByName(fetched, name) <==>
              m in GetAllMembers(fetched) && NameMatches(m, name)
  {
    var all := GetAllMembers(fetched);
    if IsBlank(name) {
      TakeIsSubsequence(all, Limit);
    } else {
      var f := Filter(all, (m: Member) => NameMatches(m, name));
      assert Take(f, Limit) == f;
      FilterIsSubsequence(all, (m: Member) => NameMatches(m, name));
    }
  }

  /** A member that is not among the first ten the server lists is never found. */
  lemma BeyondTenthNeverFound(fetched: seq<Member>, name: string, m: Member)
    requires m in fetched && m !in GetAllMembers(fetched)
    ensures m !in SearchMembersByName(fetched, name)
  {
    SearchSpec(fetched, name);
    SubsequenceElements(SearchMembersByName(fetched, name), GetAllMembers(fetched));
  }

  /** A member whose query text appears only in the e-mail is never found by the
      service, although the members page's own filter, which runs over the ten members
      the page loads, lists it whenever it is among them. */
  lemma EmailNotSearched(fetched: seq<Member>, name: string, m: Member)
    requires !IsBlank(name) && !NameMatches(m, name) && MatchesSearch(m, name)
    ensures m !in SearchMembersByName(fetched, name)
    ensures m in GetAllMembers(fetched) <==> m in FilteredMembers(GetAllMembers(fetched), name, "all")
  {
    SearchSpec(fetched, name);
    FilteredMembersSpec(GetAllMembers(fetched), name, "all");
  }
}
