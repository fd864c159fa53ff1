/** The profile settings page: the two form objects that the input
    handlers update field by field, the image size check and the password
    submit. */
module ProfileSettings {

  import opened Common

  /** A form object: field name to value. */
  type Fields = map<string, string>

  /** `{ ...prev, [name]: value }`. */
  function WithField(fields: Fields, name: string, value: string): (r: Fields)
    ensures r.Keys == fields.Keys + {name}
    ensures r[name] == value
    ensures forall other :: other in fields && other != name ==> r[other] == fields[other]
  {
    fields[name := value]
  }

  /** Two edits of different fields commute. */
  lemma EditsCommute(fields: Fields, a: string, x: string, b: string, y: string)
    requires a != b
    ensures WithField(WithField(fields, a, x), b, y) == WithField(WithField(fields, b, y), a, x)
  {
  }

  /** A second edit of the same field wins. */
  lemma LastEditWins(fields: Fields, a: string, x: string, y: string)
    ensures WithField(WithField(fields, a, x), a, y) == WithField(fields, a, y)
  {
  }

  const MaxImageBytes := 2 * 1024 * 1024
  const ImageTooLargeMessage := "L'image ne doit pas dépasser 2 MB"
  const MismatchMessage := "Passwords do not match"
  const PasswordUpdatedMessage := "Password updated successfully"

  /** The three password fields, all empty. */
  const EmptyPasswords: Fields := map["currentPassword" := "", "newPassword" := "", "confirmPassword" := ""]

  predicate HasPasswordFields(fields: Fields) {
    "currentPassword" in fields && "newPassword" in fields && "confirmPassword" in fields
  }

  /** A chosen file: only its size in bytes matters here. */
  datatype ImageFile = ImageFile(size: nat)

  class SettingsPage {
    var formData: Fields
    var passwordData: Fields
    var previewImage: Option<string>
    var error: Option<string>
    var success: Option<string>
    var isSaving: bool
    var showPasswordModal: bool

    /** The password form always holds its three fields. */
    ghost predicate Valid()
      reads this
    {
      HasPasswordFields(passwordData)
    }

    constructor (initial: Fields)
      ensures Valid()
      ensures formData == initial && passwordData == EmptyPasswords
      ensures previewImage == None && error == None && success == None
      ensures !isSaving && !showPasswordModal
    {
      formData := initial;
      passwordData := EmptyPasswords;
      previewImage := None;
      error := None;
      success := None;
      isSaving := false;
      showPasswordModal := false;
    }

    /** `handleChange`: only the named profile field changes. */
    method HandleChange(name: string, value: string)
      requires Valid()
      modifies this`formData
      ensures Valid()
      ensures formData == WithField(old(formData), name, value)
      ensures passwordData == old(passwordData) && previewImage == old(previewImage)
      ensures error == old(error) && success == old(success)
      ensures isSaving == old(isSaving) && showPasswordModal == old(showPasswordModal)
    {
      formData := WithField(formData, name, value);
    }

    /** `handlePasswordChange`: only the named password field changes. */
    method HandlePasswordChange(name: string, value: string)
      requires Valid()
      modifies this`passwordData
      ensures Valid()
      ensures passwordData == WithField(old(passwordData), name, value)
      ensures formData == old(formData) && previewImage == old(previewImage)
      ensures error == old(error) && success == old(success)
      ensures isSaving == old(isSaving) && showPasswordModal == old(showPasswordModal)
    {
      passwordData := WithField(passwordData, name, value);
    }

    /** `handleImageChange`: a file over 2 MiB sets the error and no new
        preview; a file of at most 2 MiB becomes the preview, read as the
        data URL `dataUrl`; no file changes nothing. */
    method HandleImageChange(file: Option<ImageFile>, dataUrl: string)
      requires Valid()
      modifies this`previewImage, this`error
      ensures Valid()
      ensures file.None? ==> previewImage == old(previewImage) && error == old(error)
      ensures file.Some? && file.value.size > MaxImageBytes ==>
        error == Some(ImageTooLargeMessage) && previewImage == old(previewImage)
      ensures file.Some? && file.value.size <= MaxImageBytes ==>
        previewImage == Some(dataUrl) && error == old(error)
      ensures formData == old(formData) && passwordData == old(passwordData)
      ensures success == old(success) && isSaving == old(isSaving) && showPasswordModal == old(showPasswordModal)
    {
      if file.Some? {
        if file.value.size > MaxImageBytes {
          error := Some(ImageTooLargeMessage);
          return;
        }
        previewImage := Some(dataUrl);
      }
    }

    /** `handlePasswordSubmit`: a confirmation that differs sets the error
        and sends nothing. Otherwise the fields are sent; `failure` is the
        error message when the update is refused. On success the three
        fields are emptied and the modal closes; on failure they stay. */
    method HandlePasswordSubmit(failure: Option<string>) returns (sent: Option<Fields>)
      requires Valid()
      modifies this`passwordData, this`error, this`success, this`isSaving, this`showPasswordModal
      ensures Valid()
      ensures !isSaving
      ensures sent.Some? <==> old(passwordData["newPassword"] == passwordData["confirmPassword"])
      ensures sent.Some? ==> sent.value == old(passwordData)
      ensures sent.None? ==>
        error == Some(MismatchMessage) && success == old(success) && passwordData == old(passwordData)
        && showPasswordModal == old(showPasswordModal)
      ensures sent.Some? && failure.None? ==>
        passwordData == EmptyPasswords && !showPasswordModal
        && success == Some(PasswordUpdatedMessage) && error == None
      ensures sent.Some? && failure.Some? ==>
        passwordData == old(passwordData) && showPasswordModal == old(showPasswordModal)
        && error == failure && success == None
      ensures formData == old(formData) && previewImage == old(previewImage)
    {
      isSaving := true;
      if passwordData["newPassword"] != passwordData["confirmPassword"] {
        error := Some(MismatchMessage);
        isSaving := false;
        return None;
      }
      sent := Some(passwordData);
      error := None;
      success := None;
      if failure.Some? {
        error := failure;
      } else {
        showPasswordModal := false;
        passwordData := EmptyPasswords;
        success := Some(PasswordUpdatedMessage);
      }
      isSaving := false;
    }
  }

  /** The size bound is inclusive: exactly 2 MiB is accepted, one byte more
      is not. */
  method ImageLimitIsInclusive(page: SettingsPage)
    requires page.Valid()
    modifies page
    ensures page.previewImage == Some("data:exact") && page.error == Some(ImageTooLargeMessage)
  {
    page.HandleImageChange(Some(ImageFile(MaxImageBytes)), "data:exact");
    page.HandleImageChange(Some(ImageFile(MaxImageBytes + 1)), "data:over");
  }
}
