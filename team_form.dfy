/** The admin form for adding or editing a team member, with a photo upload
    (Frontend/src/components/TeamFormModal.tsx). */
module TeamFormModal {
  import opened Common
  import opened FormParts

  /** A team member as the form receives it in `initialData`; `image` is the
      URL of the current photo. */
  datatype Member = Member(name: string, role: string, image: string)

  const RequiredMessage: string := "All fields and image are required."

  /** The FormData entries handleSubmit appends: name, then role, then the
      chosen file under "image" when there is one. */
  function Entries(name: string, role: string, imageFile: Option<ImageFile>): (entries: seq<(string, FormValue)>)
    ensures |entries| == if imageFile.Some? then 3 else 2
    ensures entries[0] == ("name", Text(name)) && entries[1] == ("role", Text(role))
    ensures imageFile.Some? ==> entries[2] == ("image", Blob(imageFile.value))
    ensures HasKey(entries, "image") <==> imageFile.Some?
  {
    var texts := [("name", Text(name)), ("role", Text(role))];
    if imageFile.Some? then texts + [("image", Blob(imageFile.value))] else texts
  }

  /** handleSubmit's decision: name and role are required, and a photo is
      required only when adding (no `initialData`); editing without a new
      file keeps the current photo. */
  function Validate(name: string, role: string, imageFile: Option<ImageFile>,
                    initialData: Option<Member>): (r: Result<seq<(string, FormValue)>, string>)
    ensures r.Ok? <==> name != "" && role != "" && (initialData.Some? || imageFile.Some?)
    ensures r.Ok? ==> r.value == Entries(name, role, imageFile)
    ensures r.Err? ==> r.error == RequiredMessage
  {
    if name == "" || role == "" || (initialData.None? && imageFile.None?) then Err(RequiredMessage)
    else Ok(Entries(name, role, imageFile))
  }

  /** The current photo is shown only when editing a member that has one and
      no new file has been chosen. */
  predicate ShowsCurrentImage(initialData: Option<Member>, imageFile: Option<ImageFile>)
  {
    initialData.Some? && initialData.value.image != "" && imageFile.None?
  }

  /** The preview of the current image: hidden when adding, hidden once a new
      file is chosen, shown when editing an entry that has one. */
  lemma CurrentImagePreview(initialData: Option<Member>, imageFile: Option<ImageFile>)
    ensures initialData.None? ==> !ShowsCurrentImage(initialData, imageFile)
    ensures imageFile.Some? ==> !ShowsCurrentImage(initialData, imageFile)
    ensures initialData.Some? && initialData.value.image == "" ==> !ShowsCurrentImage(initialData, imageFile)
    ensures initialData.Some? && initialData.value.image != "" && imageFile.None? ==>
              ShowsCurrentImage(initialData, imageFile)
  {
  }

  /** Adding without a file is refused; editing without a file is accepted
      and sends no "image" entry. */
  lemma ImageRequiredOnlyWhenAdding(name: string, role: string, m: Member)
    requires name != "" && role != ""
    ensures Validate(name, role, None, None).Err?
    ensures Validate(name, role, None, Some(m)).Ok?
    ensures !HasKey(Validate(name, role, None, Some(m)).value, "image")
  {
  }

  class TeamForm {
    var name: string
    var role: string
    var imageFile: Option<ImageFile>
    var error: string
    /** `fileInputRef.current`: null until the input is mounted. */
    var fileInput: FileInput?

    constructor (initialData: Option<Member>, fileInput: FileInput?)
      ensures name == (if initialData.Some? then initialData.value.name else "")
      ensures role == (if initialData.Some? then initialData.value.role else "")
      ensures imageFile == None && error == "" && this.fileInput == fileInput
    {
      name := if initialData.Some? then initialData.value.name else "";
      role := if initialData.Some? then initialData.value.role else "";
      imageFile := None;
      error := "";
      this.fileInput := fileInput;
    }

    /** The file input's change handler: the first chosen file, or none. */
    method ChooseFile(file: Option<ImageFile>)
      modifies this`imageFile
      ensures imageFile == file
    {
      imageFile := file;
    }

    /** The effect run when `open` or `initialData` changes: when open, name
        and role are reloaded, the chosen file and the error are cleared and
        the mounted file input is emptied. */
    method Reset(open: bool, initialData: Option<Member>)
      modifies this, fileInput
      ensures fileInput == old(fileInput)
      ensures open ==> name == (if initialData.Some? then initialData.value.name else "")
      ensures open ==> role == (if initialData.Some? then initialData.value.role else "")
      ensures open ==> imageFile == None && error == ""
      ensures open && fileInput != null ==> fileInput.value == ""
      ensures !open ==> unchanged(this) && (fileInput != null ==> unchanged(fileInput))
    {
      if open {
        name := if initialData.Some? then initialData.value.name else "";
        role := if initialData.Some? then initialData.value.role else "";
        imageFile := None;
        error := "";
        if fileInput != null {
          fileInput.value := "";
        }
      }
    }

    /** handleSubmit: builds a fresh FormData by successive appends and
        returns it (what `onSubmit` receives), or null when the form is
        rejected, in which case only the error message changes. */
    method HandleSubmit(initialData: Option<Member>) returns (sent: FormData?)
      modifies this`error
      ensures var v := Validate(name, role, imageFile, initialData);
              && (sent != null <==> v.Ok?)
              && (sent != null ==> fresh(sent) && sent.entries == v.value && error == old(error))
              && (sent == null ==> error == RequiredMessage)
    {
      if name == "" || role == "" || (initialData.None? && imageFile.None?) {
        error := RequiredMessage;
        return null;
      }
      var formData := new FormData();
      formData.Append("name", Text(name));
      formData.Append("role", Text(role));
      if imageFile.Some? {
        formData.Append("image", Blob(imageFile.value));
      }
      sent := formData;
    }
  }
}
