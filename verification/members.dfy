/** The members page: the fetched members are narrowed by a case-insensitive search
    over first name, last name and e-mail, then by role; the add form accepts only
    the three known roles; each role has a badge colour. */
module Members {
  import opened Wrappers
  import opened Seqs
  import opened Text

  /** A member as the backend sends it (`UserResponseDTO`). The role is the string
      the backend sent. */
  datatype Member = Member(
    id: int, email: string, firstName: string, lastName: string, phoneNumber: string,
    role: string, createdAt: string, updatedAt: string)

  /** The search part of `filteredMembers`: the lower-cased term occurs in the
      lower-cased first name, last name or e-mail. */
  predicate MatchesSearch(m: Member, searchTerm: string)
  {
    var term := ToLower(searchTerm);
    Includes(ToLower(m.firstName), term) || Includes(ToLower(m.lastName), term) || Includes(ToLower(m.email), term)
  }

  /** The role part of `filteredMembers`. */
  predicate MatchesRole(m: Member, roleFilter: string)
  {
    roleFilter == "all" || m.role == roleFilter
  }

  /** `filteredMembers`: the search filter, then the role filter. */
  function FilteredMembers(allMembers: seq<Member>, searchTerm: string, roleFilter: string): seq<Member>
  {
    Filter(Filter(allMembers, (m: Member) => MatchesSearch(m, searchTerm)), (m: Member) => MatchesRole(m, roleFilter))
  }

  /** The roles the add form accepts. */
  const KnownRoles: seq<string> := ["ADMIN", "LIBRARIAN", "MEMBER"]

  /** What the add form sends (`UserRequestDto`). */
  datatype MemberRequest = MemberRequest(firstName: string, lastName: string, email: string, phoneNumber: string, role: string)

  /** The fields of the add form; a field the form lacks reads as `None`. */
  datatype MemberForm = MemberForm(firstName: string, lastName: string, email: string, phone: string, role: Option<string>)

  const InvalidRole: string := "Invalid role selected."

  /** `roleValue in Role`: the names of the `Role` enumeration. */
  predicate IsRoleName(roleValue: string)
  {
    roleValue == "MEMBER" || roleValue == "LIBRARIAN" || roleValue == "ADMIN"
  }

  /** The checks of `handleAddMember` before the request: a role outside the three known
      ones is refused with "Invalid role selected."; the accepted role is upper-cased and
      checked against the enumeration a second time. */
  function AddMemberRequest(form: MemberForm): (r: Result<MemberRequest>)
  {
    if form.role.None? || form.role.value !in KnownRoles then Err(InvalidRole)
    else
      var roleValue := ToUpper(form.role.value);
      if roleValue == "" || !IsRoleName(roleValue) then Err(InvalidRole)
      else Ok(MemberRequest(form.firstName, form.lastName, form.email, form.phone, roleValue))
  }

  const AdminBadge: string := "bg-purple-100 text-purple-800 border-purple-300"
  const LibrarianBadge: string := "bg-blue-100 text-blue-800 border-blue-300"
  const MemberBadge: string := "bg-gray-100 text-gray-800 border-gray-300"

  /** `getRoleBadgeClass`. */
  function RoleBadgeClass(role: string): string
  {
    if role == "ADMIN" then AdminBadge
    else if role == "LIBRARIAN" then LibrarianBadge
    else MemberBadge
  }

  // ---------------------------------------------------------------------------
  // Properties
  // ---------------------------------------------------------------------------

  /** The list keeps the order of `allMembers`, holds exactly the members passing
      both filters, and applying the role filter first gives the same list. */
  lemma FilteredMembersSpec(allMembers: seq<Member>, searchTerm: string, roleFilter: string)
    ensures IsSubsequence(FilteredMembers(allMembers, searchTerm, roleFilter), allMembers)
    ensures forall m :: m in FilteredMembers(allMembers, searchTerm, roleFilter) <==>
              m in allMembers && MatchesSearch(m, searchTerm) && MatchesRole(m, roleFilter)
    ensures FilteredMembers(allMembers, searchTerm, roleFilter) ==
              Filter(Filter(allMembers, (m: Member) => MatchesRole(m, roleFilter)), (m: Member) => MatchesSearch(m, searchTerm))
  {
    var ps := (m: Member) => MatchesSearch(m, searchTerm);
    var pr := (m: Member) => MatchesRole(m, roleFilter);
    var both := (m: Member) => ps(m) && pr(m);
    FilterIsSubsequence(allMembers, ps);
    FilterIsSubsequence(Filter(allMembers, ps), pr);
    SubsequenceTrans(Filter(Filter(allMembers, ps), pr), Filter(allMembers, ps), allMembers);
    FilterFilter(allMembers, ps, pr, both);
  }

  /** Every listed member has the search term in its first name, last name or e-mail,
      ignoring case, and has the selected role unless the filter is "all". */
  lemma FilteredMembersMatch(allMembers: seq<Member>, searchTerm: string, roleFilter: string, m: Member)
    requires m in FilteredMembers(allMembers, searchTerm, roleFilter)
    ensures Includes(ToLower(m.firstName), ToLower(searchTerm)) || Includes(ToLower(m.lastName), ToLower(searchTerm))
            || Includes(ToLower(m.email), ToLower(searchTerm))
    ensures roleFilter != "all" ==> m.role == roleFilter
  {
    FilteredMembersSpec(allMembers, searchTerm, roleFilter);
  }

  /** An empty search with role filter "all" lists every member. */
  lemma {:induction false} EmptySearchKeepsAll(allMembers: seq<Member>)
    ensures FilteredMembers(allMembers, "", "all") == allMembers
  {
    forall m | m in allMembers ensures MatchesSearch(m, "") {
      IncludesEmpty(ToLower(m.firstName));
    }
    FilterAll(allMembers, (m: Member) => MatchesSearch(m, ""));
    FilterAll(allMembers, (m: Member) => MatchesRole(m, "all"));
  }

  /** The add form accepts exactly the three known roles and sends them unchanged;
      the second enumeration check never refuses a role the first one let through. */
  lemma AddMemberRoleSpec(form: MemberForm)
    ensures AddMemberRequest(form).Err? <==> form.role.None? || form.role.value !in KnownRoles
    ensures AddMemberRequest(form).Err? ==> AddMemberRequest(form).message == InvalidRole
    ensures AddMemberRequest(form).Ok? ==> AddMemberRequest(form).value.role == form.role.value
  {
    if form.role.Some? && form.role.value in KnownRoles {
      var role := form.role.value;
      assert ToUpper(role) == role by {
        assert role == "ADMIN" || role == "LIBRARIAN" || role == "MEMBER";
      }
    }
  }

  /** Lower-case role names are refused: the check is case-sensitive. */
  lemma LowerCaseRoleRefused(form: MemberForm)
    requires form.role == Some("admin")
    ensures AddMemberRequest(form) == Err(InvalidRole)
  {
  }

  /** ADMIN is purple, LIBRARIAN is blue, every other role string is gray. */
  lemma RoleBadgeSpec(role: string)
    ensures RoleBadgeClass(role) == AdminBadge <==> role == "ADMIN"
    ensures RoleBadgeClass(role) == LibrarianBadge <==> role == "LIBRARIAN"
    ensures RoleBadgeClass(role) == MemberBadge <==> role != "ADMIN" && role != "LIBRARIAN"
  {
  }
}
