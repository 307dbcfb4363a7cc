/**
 * The result a user page's form action reports, and how the action picks
 * its endpoint from the submitted form.
 */
module UserActions {
  import opened Wrappers
  import opened Web

  datatype ActionKind = PostAction | AvatarAction

  datatype UserActionResult = UserActionResult(success: bool, error: Option<string>, kind: ActionKind)

  const PostEndpoint: string := "/api/posts/create"

  /** The profile endpoint, which also takes avatar uploads. */
  function UserEndpoint(username: string): string
  {
    "/api/users/" + username
  }

  /** The form's `type` field is the text "post". */
  predicate IsPostSubmission(entries: seq<Entry>)
  {
    FirstValue(entries, "type") == Some(Text("post"))
  }

  /** Where the action forwards the form: post creation for a "post", the user's endpoint for anything else. */
  function ActionRequest(username: string, entries: seq<Entry>): (request: Request)
    ensures request.body == entries
    ensures request.url == PostEndpoint <==> IsPostSubmission(entries)
    ensures !IsPostSubmission(entries) ==> request.url == UserEndpoint(username)
  {
    if IsPostSubmission(entries) then Request(PostEndpoint, entries)
    else
      assert UserEndpoint(username)[5] != PostEndpoint[5];
      Request(UserEndpoint(username), entries)
  }

  /**
   * The action, with `server` standing for the back end's answer (`ok`)
   * to a request. The result's kind follows the form's type, its success
   * mirrors the answer, and it carries an error text exactly when it failed.
   */
  function Action(username: string, entries: seq<Entry>, server: Request -> bool): (result: UserActionResult)
    ensures result.kind == PostAction <==> IsPostSubmission(entries)
    ensures result.success == server(ActionRequest(username, entries))
    ensures result.error.None? <==> result.success
    ensures !result.success && result.kind == PostAction ==> result.error == Some("TODO: Comprehensive error here.")
    ensures !result.success && result.kind == AvatarAction ==> result.error == Some("TODO")
  {
    var ok := server(ActionRequest(username, entries));
    if IsPostSubmission(entries) then
      if !ok then UserActionResult(false, Some("TODO: Comprehensive error here."), PostAction)
      else UserActionResult(true, None, PostAction)
    else if ok then UserActionResult(true, None, AvatarAction)
    else UserActionResult(false, Some("TODO"), AvatarAction)
  }
}

/**
 * A user's profile page: the loader that reads `?page=`, which avatar and
 * controls are shown to whom, the opener for new posts on one's own page,
 * and the state of each post shown.
 */
module UserPage {
  import opened Wrappers
  import opened Js
  import opened Web
  import opened UserActions
  import opened MainLayout
  import CreatePostDialog

  /** A post as the profile endpoint sends it; the date is an opaque timestamp. */
  datatype Post = Post(id: int, title: string, body: string, date: nat)

  datatype UserDto = UserDto(username: string, posts: seq<Post>, totalPosts: int)

  /**
   * `parseInt(param ?? "1", 10)`, falling back to 1 when it is not a
   * number: the leading integer of the parameter, or 1.
   */
  function PageParam(param: Option<string>): (page: int)
    ensures param.None? ==> page == 1
    ensures param.Some? && ParseInt(param.value).None? ==> page == 1
    ensures param.Some? && ParseInt(param.value).Some? ==> page == ParseInt(param.value).value
  {
    var text := if param.None? then "1" else param.value;
    ParseIntOfIntToString(1, []);
    match ParseInt(text)
    case None => 1
    case Some(n) => n
  }

  /** A page number written out, followed by anything that does not start with a digit, is read back as that number. */
  lemma PageParamLeadingInteger(n: int, rest: string)
    requires rest == [] || !IsDigit(rest[0])
    ensures PageParam(Some(IntToString(n) + rest)) == n
  {
    ParseIntOfIntToString(n, rest);
  }

  /** A parameter that starts with neither white space, a sign nor a digit is not a number: page 1. */
  lemma PageParamFallback(param: string)
    requires param == [] || (!IsJsWhitespace(param[0]) && param[0] != '-' && param[0] != '+' && !IsDigit(param[0]))
    ensures PageParam(Some(param)) == 1
  {
    assert TrimStart(param) == param;
    assert Unsigned(param) == param;
    ParseIntOfNoDigits(param);
  }

  /** The back-end address the loader asks for a page of the user's posts. */
  function UserPageUrl(username: string, page: int): string
  {
    UserEndpoint(username) + "?page=" + IntToString(page)
  }

  datatype LoaderOutcome = Loaded(user: UserDto, page: int) | Thrown(status: int, statusText: string)

  /**
   * The loader, with `server` standing for the back end. It fails with
   * 404 "User not found" exactly when the answer is not ok; otherwise it
   * yields the user and the page it asked for.
   */
  function Loader(username: string, param: Option<string>, server: string -> Response<UserDto>): (outcome: LoaderOutcome)
    ensures outcome.Thrown? <==> !server(UserPageUrl(username, PageParam(param))).ok
    ensures outcome.Thrown? ==> outcome.status == 404 && outcome.statusText == "User not found"
    ensures outcome.Loaded? ==> outcome.page == PageParam(param)
                                && outcome.user == server(UserPageUrl(username, PageParam(param))).body
  {
    var page := PageParam(param);
    var response := server(UserPageUrl(username, page));
    if !response.ok then Thrown(404, "User not found") else Loaded(response.body, page)
  }

  /** The number after `?page=` in the loader's request reads back as the page the loader chose. */
  lemma LoaderForwardsPage(username: string, param: Option<string>)
    ensures var url := UserPageUrl(username, PageParam(param));
            var prefix := UserEndpoint(username) + "?page=";
            url[..|prefix|] == prefix && ParseInt(url[|prefix|..]) == Some(PageParam(param))
  {
    var page := PageParam(param);
    var prefix := UserEndpoint(username) + "?page=";
    var digits := IntToString(page);
    var url := prefix + digits;
    assert UserPageUrl(username, page) == url;
    assert url[..|prefix|] == prefix;
    assert url[|prefix|..] == digits;
    ParseIntOfIntToString(page, []);
    assert digits + [] == digits;
  }

  /** The logged-in user is looking at their own profile. */
  predicate IsOwnProfile(user: Option<AuthUser>, profile: string)
  {
    user.Some? && user.value.username == profile
  }

  /** What a JSX expression evaluates to: a boolean renders nothing, an element renders. */
  datatype Jsx = JsxBool(b: bool) | ViewerAvatar

  /**
   * `!user || user.username !== profile && <Viewer/>` as written: `&&`
   * binds tighter than `||`, so a missing user yields `true`, which
   * renders nothing.
   */
  function ViewerSlotAsWritten(user: Option<AuthUser>, profile: string): Jsx
  {
    if user.None? then JsxBool(true)
    else if user.value.username != profile then ViewerAvatar
    else JsxBool(false)
  }

  /** As written, the read-only avatar appears exactly when someone else is logged in. */
  lemma ViewerAvatarAsWritten(user: Option<AuthUser>, profile: string)
    ensures ViewerSlotAsWritten(user, profile).ViewerAvatar? <==> user.Some? && user.value.username != profile
    ensures !(IsOwnProfile(user, profile) && ViewerSlotAsWritten(user, profile).ViewerAvatar?)
  {
  }

  /** As written, a logged-out visitor sees no avatar at all on any profile. */
  lemma LoggedOutSeesNoAvatarAsWritten(profile: string)
    ensures !IsOwnProfile(None, profile) && !ViewerSlotAsWritten(None, profile).ViewerAvatar?
  {
  }

  /** The read-only avatar as intended: for anyone who is not the profile's owner, logged in or not. */
  predicate ShowViewerAvatar(user: Option<AuthUser>, profile: string)
  {
    user.None? || user.value.username != profile
  }

  /** With the intended condition every visitor sees exactly one avatar: the editable one on their own page, the read-only one elsewhere. */
  lemma ExactlyOneAvatar(user: Option<AuthUser>, profile: string)
    ensures IsOwnProfile(user, profile) != ShowViewerAvatar(user, profile)
    ensures user.Some? ==> (ShowViewerAvatar(user, profile) <==> ViewerSlotAsWritten(user, profile).ViewerAvatar?)
  {
  }

  const OpenerMessages: CreatePostDialog.Messages := CreatePostDialog.Messages("Title is required", "Body is required")

  /** A post form submitted from either dialog reaches the post-creation endpoint and is answered as a post result. */
  lemma SubmittedPostReachesPostEndpoint(username: string, form: CreatePostDialog.PostForm, server: Request -> bool)
    ensures var entries := CreatePostDialog.PostFormEntries(form);
            && ActionRequest(username, entries) == Request(PostEndpoint, entries)
            && Action(username, entries, server).kind == PostAction
  {
  }

  /** The opener on one's own profile: the same form as the dialog, but it only reacts to success. */
  class Opener {
    var openModal: bool
    var form: CreatePostDialog.PostForm
    var toasts: seq<CreatePostDialog.Toast>

    constructor()
      ensures !openModal && form == CreatePostDialog.EmptyForm && toasts == []
    {
      openModal := false;
      form := CreatePostDialog.EmptyForm;
      toasts := [];
    }

    method HandleClick()
      modifies this
      ensures openModal && form == old(form) && toasts == old(toasts)
    {
      openModal := true;
    }

    method Edit(values: CreatePostDialog.PostForm)
      modifies this
      ensures form == values && openModal == old(openModal) && toasts == old(toasts)
    {
      form := values;
    }

    /**
     * Only a successful post result closes the modal, toasts and empties
     * the form; a failure leaves the modal open with what was typed.
     */
    method OnActionData(actionData: Option<UserActionResult>)
      modifies this
      ensures actionData.Some? && actionData.value.success && actionData.value.kind == PostAction
              ==> !openModal && form == CreatePostDialog.EmptyForm
                  && toasts == old(toasts) + [CreatePostDialog.SuccessToast(CreatePostDialog.PostPublished)]
      ensures !(actionData.Some? && actionData.value.success && actionData.value.kind == PostAction)
              ==> openModal == old(openModal) && form == old(form) && toasts == old(toasts)
    {
      if actionData.Some? && actionData.value.success && actionData.value.kind == PostAction {
        openModal := false;
        toasts := toasts + [CreatePostDialog.SuccessToast(CreatePostDialog.PostPublished)];
        form := CreatePostDialog.EmptyForm;
      }
    }
  }

  /** The page's list of posts, replaced whenever the paginator loads another page. */
  class Page {
    var posts: seq<Post>

    constructor(data: UserDto)
      ensures posts == data.posts
    {
      posts := data.posts;
    }

    method UpdatePosts(newPosts: seq<Post>)
      modifies this
      ensures posts == newPosts
    {
      posts := newPosts;
    }
  }

  /** The address of a post's image. */
  function PostImageUrl(id: int): string
  {
    "/api/posts/" + IntToString(id) + "/image"
  }

  /** The image address names its post: the number after `/api/posts/` reads back as the post's id. */
  lemma PostImageUrlNamesPost(id: int)
    ensures var url := PostImageUrl(id);
            var prefix := "/api/posts/";
            url[..|prefix|] == prefix && ParseInt(url[|prefix|..]) == Some(id)
  {
    var prefix := "/api/posts/";
    var digits := IntToString(id);
    var url := prefix + digits + "/image";
    assert PostImageUrl(id) == url;
    assert url[..|prefix|] == prefix;
    assert url[|prefix|..] == digits + "/image";
    ParseIntOfIntToString(id, "/image");
  }

  /** One post on the profile: whether it is expanded, whether its image failed, whether its text is clipped. */
  class ProfilePost {
    var expanded: bool
    var imageError: bool
    var isClipped: bool

    constructor()
      ensures !expanded && !imageError && !isClipped
    {
      expanded := false;
      imageError := false;
      isClipped := false;
    }

    /** The image is shown until it fails to load. */
    function ShowImage(): bool
      reads this
    {
      !imageError
    }

    /** "Read more..." is offered while the post is collapsed and its text is cut off. */
    function ShowReadMore(): bool
      reads this
    {
      !expanded && isClipped
    }

    /** The image failed to load: it is dropped for good. */
    method OnImageError()
      modifies this
      ensures ShowImage() == false && expanded == old(expanded) && isClipped == old(isClipped)
    {
      imageError := true;
    }

    /** "Read more..." expands the post, after which it is never offered again. */
    method ReadMore()
      modifies this
      ensures expanded && !ShowReadMore() && imageError == old(imageError) && isClipped == old(isClipped)
    {
      expanded := true;
    }

    /** The measuring effect, with the element's heights given: clipped when the content is taller than its box. */
    method Measure(scrollHeight: int, clientHeight: int)
      modifies this
      ensures isClipped == (scrollHeight > clientHeight)
      ensures expanded == old(expanded) && imageError == old(imageError)
      ensures ShowReadMore() <==> !expanded && scrollHeight > clientHeight
    {
      isClipped := scrollHeight > clientHeight;
    }
  }
}
