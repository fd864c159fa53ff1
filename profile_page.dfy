/** The profile page: which tab the path selects, and the post count it
    shows. */
module ProfilePage {

  import opened Common
  import opened Text

  datatype Tab = Saved | Settings | Posts

  const SavedPath := "/profile/saved"
  const SettingsPath := "/profile/settings"

  /** The tab the effect selects: saved first, then settings, then posts. */
  function ActiveTab(path: string): (t: Tab)
    ensures t == Saved <==> exists i :: OccursAt(path, SavedPath, i)
    ensures t == Settings <==>
      (forall i :: !OccursAt(path, SavedPath, i)) && exists i :: OccursAt(path, SettingsPath, i)
    ensures t == Posts <==>
      (forall i :: !OccursAt(path, SavedPath, i)) && (forall i :: !OccursAt(path, SettingsPath, i))
  {
    if Includes(path, SavedPath) then Saved
    else if Includes(path, SettingsPath) then Settings
    else Posts
  }

  /** Every path below the saved page selects the saved tab, whatever
      follows, even when the settings path occurs too. */
  lemma {:induction false} SavedWins(prefix: string, rest: string)
    ensures ActiveTab(prefix + SavedPath + rest) == Saved
  {
    var path := prefix + SavedPath + rest;
    assert path[|prefix|..|prefix| + |SavedPath|] == SavedPath;
    assert OccursAt(path, SavedPath, |prefix|);
  }

  /** The count shown: `countPosts ?? 0`, so a known count of 0 shows as 0
      and an unknown count shows as 0 too. */
  function PostCountShown(countPosts: Option<int>): (shown: int)
    ensures countPosts.Some? ==> shown == countPosts.value
    ensures countPosts.None? ==> shown == 0
  {
    countPosts.GetOr(0)
  }

  /** The member `getCountPostsByUser` the page takes from `useUsers()`:
      `None` when the hook does not provide it. */
  type CountFetcher = Option<Id -> int>

  /** `useUsers()` as written returns no `getCountPostsByUser`. */
  const HookCountFetcher: CountFetcher := None

  /** `fetchPostCount`: without a signed-in user nothing happens. Calling
      a missing fetcher throws a TypeError, which the `catch` only logs, so
      the count is left as it was; otherwise the fetched count is stored. */
  function FetchPostCount(fetcher: CountFetcher, user: Option<Id>, countPosts: Option<int>): (r: Option<int>)
    ensures user.None? || fetcher.None? ==> r == countPosts
    ensures user.Some? && fetcher.Some? ==> r == Some(fetcher.value(user.value))
  {
    match (user, fetcher)
    case (Some(id), Some(count)) => Some(count(id))
    case _ => countPosts
  }

  /** As written, the page shows 0 posts for every signed-in user, even one
      whose post count on the server is positive: the count starts
      unknown and the fetch never replaces it. */
  lemma CountShownAsWritten(user: Id, serverCount: Id -> int)
    requires serverCount(user) > 0
    ensures PostCountShown(FetchPostCount(HookCountFetcher, Some(user), None)) == 0
    ensures PostCountShown(FetchPostCount(HookCountFetcher, Some(user), None)) != serverCount(user)
  {
  }

  /** With a hook that provides the fetcher, the page shows the server's
      count for the signed-in user, and keeps showing it after any later
      fetch for that user. */
  lemma CountShownWithFetcher(user: Id, serverCount: Id -> int, before: Option<int>)
    ensures PostCountShown(FetchPostCount(Some(serverCount), Some(user), before)) == serverCount(user)
    ensures var once := FetchPostCount(Some(serverCount), Some(user), before);
      FetchPostCount(Some(serverCount), Some(user), once) == once
  {
  }
}
