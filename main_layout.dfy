/**
 * The layout around every page: the document title chosen from the URL
 * path, and the state behind the logged-in user's avatar (its cache-busting
 * link and whether the stock photo is shown instead).
 */
module MainLayout {
  import opened Wrappers
  import opened Js

  /** The logged-in user as the session check reports it. */
  datatype AuthUser = AuthUser(username: string)

  const SiteName: string := "RustyPosts"

  const UsersPrefix: string := "/users/"

  /** `^/users/[^/]+$`: the prefix, then at least one character and no further '/'. */
  predicate IsProfilePath(path: string)
  {
    |path| > |UsersPrefix| && path[..|UsersPrefix|] == UsersPrefix
    && forall i :: |UsersPrefix| <= i < |path| ==> path[i] != '/'
  }

  /**
   * The document title for a path. Every title ends with the site name, and
   * it is the bare site name exactly when the path is neither the login
   * page, the sign-up page nor a profile.
   */
  function Title(path: string): (title: string)
    ensures |title| >= |SiteName| && title[|title| - |SiteName|..] == SiteName
    ensures title == SiteName <==> path != "/login" && path != "/signup" && !IsProfilePath(path)
  {
    if path == "/login" then "Login | " + SiteName
    else if path == "/signup" then "Create an account | " + SiteName
    else if IsProfilePath(path) then path[|UsersPrefix|..] + "'s Profile | " + SiteName
    else SiteName
  }

  /** The profile of any non-empty name without '/' is titled after that name. */
  lemma TitleOfProfile(name: string)
    requires name != [] && forall i :: 0 <= i < |name| ==> name[i] != '/'
    ensures Title(UsersPrefix + name) == name + "'s Profile | RustyPosts"
  {
    var path := UsersPrefix + name;
    assert path[..|UsersPrefix|] == UsersPrefix;
    assert path[|UsersPrefix|..] == name;
    assert forall i :: |UsersPrefix| <= i < |path| ==> path[i] == name[i - |UsersPrefix|];
  }

  /** A profile path is titled after the part following the prefix. */
  lemma ProfileTitle(path: string)
    requires IsProfilePath(path)
    ensures Title(path) == path[|UsersPrefix|..] + "'s Profile | " + SiteName
  {
    assert path != "/login" && path != "/signup" by {
      assert |path| > |UsersPrefix|;
    }
  }

  /** Appending the same text to two strings keeps them apart. */
  lemma AppendCancel(x: string, y: string, suffix: string)
    requires x + suffix == y + suffix
    ensures x == y
  {
    assert |x| == |y|;
    assert x == (x + suffix)[..|x|];
    assert y == (y + suffix)[..|y|];
  }

  /** Two profile paths with the same title are the same path: the title names the profile. */
  lemma ProfileTitleInjective(a: string, b: string)
    requires IsProfilePath(a) && IsProfilePath(b)
    requires Title(a) == Title(b)
    ensures a == b
  {
    var na, nb := a[|UsersPrefix|..], b[|UsersPrefix|..];
    ProfileTitle(a);
    ProfileTitle(b);
    AppendCancel(na + "'s Profile | ", nb + "'s Profile | ", SiteName);
    AppendCancel(na, nb, "'s Profile | ");
    assert a == a[..|UsersPrefix|] + na && b == b[..|UsersPrefix|] + nb;
  }

  /** The two fixed pages and their titles. */
  lemma TitleExamples()
    ensures Title("/login") == "Login | RustyPosts"
    ensures Title("/signup") == "Create an account | RustyPosts"
  {
  }

  /** Paths that only look like titled pages get the bare site name. */
  lemma UntitledExamples()
    ensures Title("/users/") == "RustyPosts"
    ensures Title("/users/a/b") == "RustyPosts"
    ensures Title("/login/") == "RustyPosts"
  {
    var nested, slashed := "/users/a/b", "/login/";
    assert nested[8] == '/';
    assert slashed[1] != UsersPrefix[1];
  }

  /** `/api/users/<name>/avatar?v=`, the part of an avatar link before the timestamp. */
  function AvatarPrefix(name: string): string
  {
    "/api/users/" + name + "/avatar?v="
  }

  /** The link is the named user's avatar followed by a non-empty decimal timestamp. */
  predicate IsAvatarLinkFor(name: string, link: string)
  {
    var p := AvatarPrefix(name);
    |link| > |p| && link[..|p|] == p && AllDigits(link[|p|..])
  }

  /**
   * The profile-picture link for the loader's user at time `now`
   * (`Date.now()`): none when nobody is logged in, otherwise the user's
   * avatar with the time as a query parameter.
   */
  function AvatarLink(user: Option<AuthUser>, now: nat): (link: Option<string>)
    ensures link.None? <==> user.None?
    ensures link.Some? ==> IsAvatarLinkFor(user.value.username, link.value)
  {
    if user.None? then None
    else
      var link := AvatarPrefix(user.value.username) + NatToString(now);
      assert link[..|AvatarPrefix(user.value.username)|] == AvatarPrefix(user.value.username);
      assert link[|AvatarPrefix(user.value.username)|..] == NatToString(now);
      Some(link)
  }

  /** The digits after the avatar prefix read back as the time the link was made. */
  lemma AvatarLinkTimestamp(user: AuthUser, now: nat)
    ensures var link := AvatarLink(Some(user), now).value;
            var p := AvatarPrefix(user.username);
            link[..|p|] == p && DigitsValue(link[|p|..]) == now
  {
    var p := AvatarPrefix(user.username);
    var link := AvatarLink(Some(user), now).value;
    assert link[|p|..] == NatToString(now);
    DigitsValueOfNatToString(now);
  }

  /** Links made at different times differ, so the browser fetches the avatar again. */
  lemma AvatarLinkCacheBusting(user: AuthUser, t1: nat, t2: nat)
    requires t1 != t2
    ensures AvatarLink(Some(user), t1) != AvatarLink(Some(user), t2)
  {
    AvatarLinkTimestamp(user, t1);
    AvatarLinkTimestamp(user, t2);
  }

  /** The state cells of the layout. */
  class Layout {
    /** The loader's data: who is logged in. */
    var user: Option<AuthUser>
    var profilePicture: Option<string>
    var stockPhoto: bool

    /** A link is only ever held for a logged-in user, and it is that user's avatar. */
    predicate Valid()
      reads this
    {
      profilePicture.Some? ==> user.Some? && IsAvatarLinkFor(user.value.username, profilePicture.value)
    }

    /** Before any effect runs: no link and no stock photo. */
    constructor(user: Option<AuthUser>)
      ensures Valid()
      ensures this.user == user && profilePicture == None && !stockPhoto
    {
      this.user := user;
      profilePicture := None;
      stockPhoto := false;
    }

    /** The effect that runs when the loader's data arrives: a fresh link, the stock-photo flag untouched. */
    method OnLoaderData(newUser: Option<AuthUser>, now: nat)
      modifies this
      ensures Valid()
      ensures user == newUser && profilePicture == AvatarLink(newUser, now)
      ensures stockPhoto == old(stockPhoto)
    {
      user := newUser;
      if newUser.None? {
        profilePicture := None;
      } else {
        profilePicture := AvatarLink(newUser, now);
      }
    }

    function GetLoggedUser(): Option<AuthUser>
      reads this
    {
      user
    }

    function GetProfilePictureLink(): Option<string>
      reads this
    {
      profilePicture
    }

    function IsStockPhoto(): bool
      reads this
    {
      stockPhoto
    }

    /** After an avatar upload: a fresh link, and the real picture is tried again instead of the stock photo. */
    method UpdateProfilePictureLink(now: nat)
      requires Valid()
      modifies this
      ensures Valid()
      ensures GetLoggedUser() == old(GetLoggedUser())
      ensures GetProfilePictureLink() == AvatarLink(user, now)
      ensures !IsStockPhoto()
    {
      if user.None? {
        profilePicture := None;
      } else {
        profilePicture := AvatarLink(user, now);
      }
      stockPhoto := false;
    }

    /** The stock-photo flag reads back the last value set; nothing else changes. */
    method SetStockPhoto(state: bool)
      requires Valid()
      modifies this
      ensures Valid()
      ensures IsStockPhoto() == state
      ensures GetLoggedUser() == old(GetLoggedUser())
      ensures GetProfilePictureLink() == old(GetProfilePictureLink())
    {
      stockPhoto := state;
    }
  }
}
