/** The user-management page (ui/src/pages/users/ManageUsers.tsx): the search box and the three
    role tabs. */
module ManageUsers {
  import opened Domain
  import opened Seqs

  /** The characters `String.prototype.trim` removes: white space and line terminators. */
  predicate IsTrimmable(c: char)
  {
    || c == '\t' || c == '\n' || c == '\U{B}' || c == '\U{C}' || c == '\r' || c == ' '
    || c == '\U{A0}' || c == '\U{1680}' || ('\U{2000}' <= c <= '\U{200A}')
    || c == '\U{2028}' || c == '\U{2029}' || c == '\U{202F}' || c == '\U{205F}'
    || c == '\U{3000}' || c == '\U{FEFF}'
  }

  function TrimStart(s: string): (r: string)
    ensures |r| <= |s|
  {
    if s != [] && IsTrimmable(s[0]) then TrimStart(s[1..]) else s
  }

  function TrimEnd(s: string): (r: string)
    ensures |r| <= |s|
  {
    if s != [] && IsTrimmable(s[|s| - 1]) then TrimEnd(s[..|s| - 1]) else s
  }

  /** `s.trim()`. */
  function Trim(s: string): (r: string)
  {
    TrimEnd(TrimStart(s))
  }

  /** A string trims to "" exactly when every character in it is white space. */
  lemma {:induction false} TrimEmptyIffAllSpace(s: string)
    ensures Trim(s) == "" <==> forall i :: 0 <= i < |s| ==> IsTrimmable(s[i])
  {
    TrimStartEmpty(s);
    var t := TrimStart(s);
    if t != [] {
      TrimStartKeepsFirst(s);
      TrimEndNonEmpty(t);
    }
  }

  lemma {:induction false} TrimStartEmpty(s: string)
    ensures TrimStart(s) == "" <==> forall i :: 0 <= i < |s| ==> IsTrimmable(s[i])
  {
    if s != [] && IsTrimmable(s[0]) {
      TrimStartEmpty(s[1..]);
      assert forall i :: 1 <= i < |s| ==> s[i] == s[1..][i - 1];
    }
  }

  lemma {:induction false} TrimStartKeepsFirst(s: string)
    requires TrimStart(s) != ""
    ensures !IsTrimmable(TrimStart(s)[0])
  {
    if s != [] && IsTrimmable(s[0]) {
      TrimStartKeepsFirst(s[1..]);
    }
  }

  lemma {:induction false} TrimEndNonEmpty(s: string)
    requires s != [] && !IsTrimmable(s[0])
    ensures TrimEnd(s) != ""
  {
    if IsTrimmable(s[|s| - 1]) {
      assert |s| > 1;
      TrimEndNonEmpty(s[..|s| - 1]);
    }
  }

  /** `toLowerCase` on the ASCII letters; other characters are left as they are. */
  function ToLower(s: string): (r: string)
    ensures |r| == |s|
    ensures forall i :: 0 <= i < |s| ==> r[i] == LowerChar(s[i])
  {
    if s == [] then [] else [LowerChar(s[0])] + ToLower(s[1..])
  }

  function LowerChar(c: char): char
  {
    if 'A' <= c <= 'Z' then (c as int - 'A' as int + 'a' as int) as char else c
  }

  /** `haystack.includes(needle)`. */
  predicate Includes(haystack: string, needle: string)
    decreases |haystack|
  {
    if |needle| > |haystack| then false
    else haystack[..|needle|] == needle || (haystack != [] && Includes(haystack[1..], needle))
  }

  /** The search predicate: the lower-cased term, untrimmed, inside the lower-cased username,
      first name or last name. */
  predicate MatchesSearch(u: UserDto, term: string)
  {
    || Includes(ToLower(u.username), ToLower(term))
    || Includes(ToLower(u.firstName), ToLower(term))
    || Includes(ToLower(u.lastName), ToLower(term))
  }

  /** The filtered list the page shows for a search term. */
  function SearchUsers(users: seq<UserDto>, term: string): (r: seq<UserDto>)
    ensures Trim(term) == "" ==> r == users
    ensures Trim(term) != "" ==> forall u :: u in r <==> u in users && MatchesSearch(u, term)
    ensures Subsequence(r, users)
  {
    if Trim(term) == "" then
      SubsequenceRefl(users);
      users
    else
      var p := (u: UserDto) => MatchesSearch(u, term);
      FilterIsSubsequence(users, p);
      assert forall u :: u in users && p(u) ==> u in Filter(users, p) by {
        forall u | u in users && p(u) ensures u in Filter(users, p) {
          var i :| 0 <= i < |users| && users[i] == u;
        }
      }
      Filter(users, p)
  }

  lemma {:induction false} SubsequenceRefl<T>(s: seq<T>)
    ensures Subsequence(s, s)
  {
    if s != [] {
      SubsequenceRefl(s[1..]);
    }
  }

  /** A term of white space alone, however long, shows every user. */
  lemma BlankSearchShowsAll(users: seq<UserDto>, term: string)
    requires forall i :: 0 <= i < |term| ==> IsTrimmable(term[i])
    ensures SearchUsers(users, term) == users
  {
    TrimEmptyIffAllSpace(term);
  }

  /** The term is matched with its spaces: "bob " finds no user named bob. */
  lemma SearchTermIsNotTrimmed()
    ensures var bob := UserDto(2, "bob", "Bob", "Smith", "Analyst", "5550100", {"ROLE_REGULAR"}, None, None);
            SearchUsers([bob], "bob ") == []
  {
    var bob := UserDto(2, "bob", "Bob", "Smith", "Analyst", "5550100", {"ROLE_REGULAR"}, None, None);
    assert Trim("bob ") != "" by {
      assert !IsTrimmable("bob "[0]);
      TrimEmptyIffAllSpace("bob ");
    }
    assert ToLower("bob ") == "bob ";
    assert ToLower("Smith") == "smith";
    assert !Includes("smith", "bob ") by {
      assert "smith"[..4] != "bob " && "mith"[..4] != "bob ";
      assert "smith"[1..] == "mith" && "mith"[1..] == "ith";
    }
    assert !MatchesSearch(bob, "bob ");
  }

  /** The tab of users holding a role, taken from the filtered list. */
  function RoleTab(filtered: seq<UserDto>, role: RoleName): (r: seq<UserDto>)
    ensures forall u :: u in r <==> u in filtered && RoleNameText(role) in u.roles
    ensures Subsequence(r, filtered)
  {
    var p := (u: UserDto) => RoleNameText(role) in u.roles;
    FilterIsSubsequence(filtered, p);
    assert forall u :: u in filtered && p(u) ==> u in Filter(filtered, p) by {
      forall u | u in filtered && p(u) ensures u in Filter(filtered, p) {
        var i :| 0 <= i < |filtered| && filtered[i] == u;
      }
    }
    Filter(filtered, p)
  }

  /** A user holding one role, as every stored user does, is in exactly one tab. */
  lemma SingleRoleUserInOneTab(filtered: seq<UserDto>, u: UserDto, a: RoleName, b: RoleName)
    requires u in filtered && |u.roles| == 1
    requires u in RoleTab(filtered, a) && u in RoleTab(filtered, b)
    ensures a == b
  {
    var x :| x in u.roles;
    assert |u.roles - {x}| == 0;
    assert RoleNameText(a) == x && RoleNameText(b) == x by {
      assert RoleNameText(a) !in u.roles - {x} && RoleNameText(b) !in u.roles - {x};
    }
  }
}
