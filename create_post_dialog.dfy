/**
 * The "create a post" dialog: the rules a post form must meet, the form
 * data it submits, and what the dialog does with the action's result.
 * The same form, with other wording, is used by the opener on a user's
 * own profile page.
 */
module CreatePostDialog {
  import opened Wrappers
  import opened Web
  import opened UserActions

  /** The form's fields; `image` is the file input's list, absent until something is picked. */
  datatype PostForm = PostForm(title: string, body: string, image: Option<seq<File>>)

  /** What `reset()` brings the form back to: every field empty. */
  const EmptyForm: PostForm := PostForm("", "", None)

  /** `image?.[0]`: the first chosen file, if there is one. */
  function FirstFile(image: Option<seq<File>>): (f: Option<File>)
    ensures f.Some? <==> image.Some? && |image.value| > 0
    ensures f.Some? ==> f.value == image.value[0]
  {
    if image.Some? && |image.value| > 0 then Some(image.value[0]) else None
  }

  /** 5 MiB: an image must be strictly smaller. */
  const MaxImageSize: nat := 5 * 1024 * 1024

  const AcceptedImageType: string := "image/png"

  const ImageTooLarge: string := "Image is too large"

  const UnsupportedFileType: string := "Unsupported file type"

  /** The "fileSize" test: no file passes; a file passes when under 5 MiB. */
  predicate ImageSizeOk(image: Option<seq<File>>)
  {
    FirstFile(image).None? || FirstFile(image).value.size < MaxImageSize
  }

  /** The "fileType" test: no file passes; a file passes when it is a PNG. */
  predicate ImageTypeOk(image: Option<seq<File>>)
  {
    FirstFile(image).None? || FirstFile(image).value.mimeType == AcceptedImageType
  }

  /** The wording of the two "required" errors, which differs between the dialog and the opener. */
  datatype Messages = Messages(titleRequired: string, bodyRequired: string)

  const DialogMessages: Messages := Messages("A title is required", "A body is required")

  /** The first error of each field, if any. */
  datatype FormErrors = FormErrors(title: Option<string>, body: Option<string>, image: Option<string>)

  const NoErrors: FormErrors := FormErrors(None, None, None)

  /**
   * Validation of the whole form. A string field that is required fails
   * when empty; the image's size test comes before its type test, so a
   * file that fails both is reported as too large.
   */
  function Validate(form: PostForm, messages: Messages): (errors: FormErrors)
    ensures errors.title.Some? <==> form.title == ""
    ensures errors.body.Some? <==> form.body == ""
    ensures errors.image.None? <==> ImageSizeOk(form.image) && ImageTypeOk(form.image)
    ensures errors.image == Some(ImageTooLarge) <==> !ImageSizeOk(form.image)
  {
    FormErrors(
      if form.title == "" then Some(messages.titleRequired) else None,
      if form.body == "" then Some(messages.bodyRequired) else None,
      if !ImageSizeOk(form.image) then Some(ImageTooLarge)
      else if !ImageTypeOk(form.image) then Some(UnsupportedFileType)
      else None)
  }

  /**
   * A form is submitted exactly when its title and body are not empty and
   * it carries either no file or a PNG under 5 MiB; the wording of the
   * messages plays no part.
   */
  lemma AcceptedForms(form: PostForm, messages: Messages)
    ensures Validate(form, messages) == NoErrors
            <==> form.title != "" && form.body != ""
                 && (form.image.None? || |form.image.value| == 0
                     || (form.image.value[0].size < 5 * 1024 * 1024 && form.image.value[0].mimeType == "image/png"))
  {
  }

  /** A form without a file passes both image tests, whatever the list holds. */
  lemma MissingImagePasses(form: PostForm, messages: Messages)
    requires form.image.None? || form.image.value == []
    ensures Validate(form, messages).image.None?
  {
  }

  /** The fields sent when the form is submitted, in the order they are appended. */
  function PostFormEntries(form: PostForm): (entries: seq<Entry>)
    ensures FirstValue(entries, "title") == Some(Text(form.title))
    ensures FirstValue(entries, "body") == Some(Text(form.body))
    ensures FirstValue(entries, "type") == Some(Text("post"))
    ensures FirstValue(entries, "image").Some? <==> FirstFile(form.image).Some?
    ensures FirstFile(form.image).Some? ==> FirstValue(entries, "image") == Some(Blob(FirstFile(form.image).value))
    ensures |entries| == if FirstFile(form.image).Some? then 4 else 3
  {
    var fields := [Entry("title", Text(form.title)), Entry("body", Text(form.body)), Entry("type", Text("post"))];
    assert fields[1..][1..] == [Entry("type", Text("post"))];
    assert FirstValue(fields[1..], "type") == Some(Text("post"));
    assert FirstValue(fields, "image") == None;
    match FirstFile(form.image)
    case None => fields
    case Some(file) =>
      var image := Entry("image", Blob(file));
      FirstValueAppendOther(fields, image, "title");
      FirstValueAppendOther(fields, image, "body");
      FirstValueAppendOther(fields, image, "type");
      FirstValueAppendNew(fields, image);
      fields + [image]
  }

  /** `onSubmit`: append title, body and type, then the file when one was chosen. */
  method OnSubmit(form: PostForm) returns (data: FormData)
    ensures fresh(data)
    ensures data.entries == PostFormEntries(form)
  {
    var file := FirstFile(form.image);
    data := new FormData();
    data.Append("title", Text(form.title));
    data.Append("body", Text(form.body));
    data.Append("type", Text("post"));
    if file.Some? {
      data.Append("image", Blob(file.value));
    }
  }

  datatype Toast = SuccessToast(message: string) | ErrorToast(message: string)

  const PostPublished: string := "Post published"

  /** The router's navigation state. */
  datatype NavigationState = Idle | Loading | Submitting

  datatype SubmitButton = SubmitButton(disabled: bool, caption: string)

  /** The submit button is disabled, and says so, exactly while the form is being submitted. */
  function SubmitButtonFor(navigation: NavigationState): (button: SubmitButton)
    ensures button.disabled <==> navigation == Submitting
    ensures button.caption == (if button.disabled then "Publishing..." else "Publish")
  {
    var disableSubmitting := navigation == Submitting;
    SubmitButton(disableSubmitting, if disableSubmitting then "Publishing..." else "Publish")
  }

  /** The dialog's state: whether the modal is open, the form's values and the toasts shown so far. */
  class Dialog {
    var openModal: bool
    var form: PostForm
    var toasts: seq<Toast>

    constructor()
      ensures !openModal && form == EmptyForm && toasts == []
    {
      openModal := false;
      form := EmptyForm;
      toasts := [];
    }

    /** A click on "Start a new post..." opens the modal. */
    method HandleClick()
      modifies this
      ensures openModal && form == old(form) && toasts == old(toasts)
    {
      openModal := true;
    }

    /** Escape or a click outside closes the modal, keeping what was typed. */
    method RequestClose()
      modifies this
      ensures !openModal && form == old(form) && toasts == old(toasts)
    {
      openModal := false;
    }

    /** The user edits the fields. */
    method Edit(values: PostForm)
      modifies this
      ensures form == values && openModal == old(openModal) && toasts == old(toasts)
    {
      form := values;
    }

    /**
     * The effect on a new action result: anything but a post result is
     * ignored; a post result closes the modal and empties the form whether
     * or not it succeeded, and toasts the outcome.
     */
    method OnActionData(actionData: Option<UserActionResult>)
      modifies this
      ensures actionData.None? || actionData.value.kind != PostAction
              ==> openModal == old(openModal) && form == old(form) && toasts == old(toasts)
      ensures actionData.Some? && actionData.value.kind == PostAction
              ==> !openModal && form == EmptyForm
                  && toasts == old(toasts) + [if actionData.value.success then SuccessToast(PostPublished)
                                              else ErrorToast("An error occurred")]
    {
      if actionData.None? || actionData.value.kind != PostAction {
        return;
      }
      openModal := false;
      form := EmptyForm;
      if actionData.value.success {
        toasts := toasts + [SuccessToast(PostPublished)];
      } else {
        toasts := toasts + [ErrorToast("An error occurred")];
      }
    }
  }
}
