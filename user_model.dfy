/** The User schema: required, unique, trimmed username; required,
    unique, trimmed, lower-cased email matching the address pattern;
    required password of at least 8 characters; empty-string defaults
    for the profile picture and the bio. */
module UserModel {

  import opened Common
  import opened Text

  datatype User = User(
    username: string,
    email: string,
    password: string,
    profilePicture: string,
    bio: string)

  const MinStoredPasswordLength := 8

  /** A part of `/^[^\s@]+@[^\s@]+\.[^\s@]+$/`: one or more characters,
      none of them white space or '@'. */
  predicate PatternPart(s: string) {
    s != [] && forall i :: 0 <= i < |s| ==> !IsSpace(s[i]) && s[i] != '@'
  }

  /** The address pattern read as a regular expression: `s` splits at an
      '@' (position `at`) and a later '.' (position `dot`) into three
      parts of the shape above. */
  predicate SplitsAsEmail(s: string, at: int, dot: int) {
    0 < at < dot < |s| - 1 && s[at] == '@' && s[dot] == '.'
    && PatternPart(s[..at]) && PatternPart(s[at + 1..dot]) && PatternPart(s[dot + 1..])
  }

  /** A '.' with at least one character on each side. */
  predicate DotInside(d: string) {
    exists j :: 0 < j < |d| - 1 && d[j] == '.'
  }

  /** One left-to-right evaluation of the address pattern: no white
      space, a single '@' that is not first, and after it a '.' with
      text on both sides. */
  predicate MatchesEmail(s: string) {
    HasNoSpace(s) && '@' in s
    && var at := IndexOf(s, '@');
    at > 0 && '@' !in s[at + 1..] && DotInside(s[at + 1..])
  }

  /** The evaluation accepts exactly the strings the pattern describes. */
  lemma EmailCheckIsPattern(s: string)
    ensures MatchesEmail(s) <==> exists at, dot :: SplitsAsEmail(s, at, dot)
  {
    if MatchesEmail(s) {
      var at, dot := CheckFindsParts(s);
    }
    if exists at, dot :: SplitsAsEmail(s, at, dot) {
      var at, dot :| SplitsAsEmail(s, at, dot);
      PartsPassCheck(s, at, dot);
    }
  }

  lemma CheckFindsParts(s: string) returns (at: int, dot: int)
    requires MatchesEmail(s)
    ensures SplitsAsEmail(s, at, dot)
  {
    at := IndexOf(s, '@');
    var d := s[at + 1..];
    var j :| 0 < j < |d| - 1 && d[j] == '.';
    dot := at + 1 + j;
    assert PatternPart(s[..at]) by {
      forall i | 0 <= i < at ensures !IsSpace(s[..at][i]) && s[..at][i] != '@' {
        assert s[..at][i] == s[i];
      }
    }
    var mid, tail := s[at + 1..dot], s[dot + 1..];
    assert PatternPart(mid) by {
      forall i | 0 <= i < |mid| ensures !IsSpace(mid[i]) && mid[i] != '@' {
        assert mid[i] == d[i] == s[at + 1 + i];
      }
    }
    assert PatternPart(tail) by {
      forall i | 0 <= i < |tail| ensures !IsSpace(tail[i]) && tail[i] != '@' {
        assert tail[i] == d[j + 1 + i] == s[dot + 1 + i];
      }
    }
  }

  lemma PartsPassCheck(s: string, at: int, dot: int)
    requires SplitsAsEmail(s, at, dot)
    ensures MatchesEmail(s)
  {
    assert forall i :: 0 <= i < at ==> s[..at][i] == s[i];
    assert forall i :: at < i < dot ==> s[at + 1..dot][i - at - 1] == s[i];
    assert forall i :: dot < i < |s| ==> s[dot + 1..][i - dot - 1] == s[i];
    assert HasNoSpace(s);
    assert '@' !in s[..at];
    IndexOfIsFirst(s, '@', at);
    var d := s[at + 1..];
    assert forall i :: 0 <= i < |d| ==> d[i] == s[at + 1 + i];
    assert '@' !in d;
    assert d[dot - at - 1] == '.';
  }

  /** What the setters store: username and email trimmed, the email
      lower-cased, and the two defaults. */
  function Cast(username: string, email: string, password: string): User {
    User(Trim(username), NormaliseEmail(email), password, "", "")
  }

  function NormaliseEmail(email: string): string {
    Lower(Trim(email))
  }

  /** The schema's validators, run on the cast values at save time. */
  predicate SchemaValid(u: User) {
    u.username != "" && u.email != "" && MatchesEmail(u.email)
    && Utf16Length(u.password) >= MinStoredPasswordLength
  }

  /** The usernames and the emails of the stored users are unique. */
  ghost predicate UniqueAccounts(users: map<Id, User>) {
    forall a, b :: a in users && b in users && a != b ==>
      users[a].username != users[b].username && users[a].email != users[b].email
  }

  /** Saving an account whose name and address no stored user has keeps
      names and addresses unique. */
  lemma {:induction false} InsertKeepsAccountsUnique(users: map<Id, User>, k: Id, u: User)
    requires k !in users && UniqueAccounts(users)
    requires forall id :: id in users ==> users[id].username != u.username && users[id].email != u.email
    ensures UniqueAccounts(users[k := u])
  {
    var after := users[k := u];
    forall a, b | a in after && b in after && a != b
      ensures after[a].username != after[b].username && after[a].email != after[b].email
    {
      if a != k && b != k {
        assert after[a] == users[a] && after[b] == users[b];
      }
    }
  }

  /** An address that passed the pattern is stored unchanged apart from
      lower-casing, and still matches the pattern. */
  lemma {:induction false} CheckedEmailStaysValid(email: string)
    requires MatchesEmail(email)
    ensures NormaliseEmail(email) == Lower(email)
    ensures MatchesEmail(NormaliseEmail(email))
  {
    TrimKeepsUnspaced(email);
    var l := Lower(email);
    var at := IndexOf(email, '@');
    assert forall i :: 0 <= i < |l| ==> (l[i] == '@' <==> email[i] == '@');
    assert forall i :: 0 <= i < |l| ==> (l[i] == '.' <==> email[i] == '.');
    assert forall i :: 0 <= i < |l| ==> (IsSpace(l[i]) <==> IsSpace(email[i]));
    assert l[..at] == Lower(email[..at]);
    assert '@' !in l[..at] by {
      forall i | 0 <= i < at ensures l[..at][i] != '@' {
        assert email[..at][i] == email[i];
      }
    }
    IndexOfIsFirst(l, '@', at);
    var d := email[at + 1..];
    var ld := l[at + 1..];
    assert forall i :: 0 <= i < |ld| ==> ld[i] == LowerChar(d[i]);
    assert '@' !in ld by {
      forall i | 0 <= i < |ld| ensures ld[i] != '@' {
        assert d[i] != '@';
      }
    }
    var j :| 0 < j < |d| - 1 && d[j] == '.';
    assert ld[j] == '.';
  }
}
