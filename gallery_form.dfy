/** The admin form for adding or editing a gallery image, with an image upload
    (Frontend/src/components/GalleryFormModal.tsx). */
module GalleryFormModal {
  import opened Common
  import opened FormParts

  /** A gallery image as the form receives it in `initialData`; `src` is the
      URL of the current image. */
  datatype Picture = Picture(title: string, alt: string, src: string)

  const RequiredMessage: string := "All fields and image are required."

  /** The FormData entries handleSubmit appends: title, then alt text, then the
      chosen file under "image" when there is one. */
  function Entries(title: string, alt: string, imageFile: Option<ImageFile>): (entries: seq<(string, FormValue)>)
    ensures |entries| == if imageFile.Some? then 3 else 2
    ensures entries[0] == ("title", Text(title)) && entries[1] == ("alt", Text(alt))
    ensures imageFile.Some? ==> entries[2] == ("image", Blob(imageFile.value))
    ensures HasKey(entries, "image") <==> imageFile.Some?
  {
    var texts := [("title", Text(title)), ("alt", Text(alt))];
    if imageFile.Some? then texts + [("image", Blob(imageFile.value))] else texts
  }

  /** handleSubmit's decision: title and alt text are required, and an image
      file is required only when adding (no `initialData`); editing without a
      new file keeps the current image. */
  function Validate(title: string, alt: string, imageFile: Option<ImageFile>,
                    initialData: Option<Picture>): (r: Result<seq<(string, FormValue)>, string>)
    ensures r.Ok? <==> title != "" && alt != "" && (initialData.Some? || imageFile.Some?)
    ensures r.Ok? ==> r.value == Entries(title, alt, imageFile)
    ensures r.Err? ==> r.error == RequiredMessage
  {
    if title == "" || alt == "" || (initialData.None? && imageFile.None?) then Err(RequiredMessage)
    else Ok(Entries(title, alt, imageFile))
  }

  /** The current image is shown only when editing a picture that has one and
      no new file has been chosen. */
  predicate ShowsCurrentImage(initialData: Option<Picture>, imageFile: Option<ImageFile>)
  {
    initialData.Some? && initialData.value.src != "" && imageFile.None?
  }

  /** The preview of the current image: hidden when adding, hidden once a new
      file is chosen, shown when editing an entry that has one. */
  lemma CurrentImagePreview(initialData: Option<Picture>, imageFile: Option<ImageFile>)
    ensures initialData.None? ==> !ShowsCurrentImage(initialData, imageFile)
    ensures imageFile.Some? ==> !ShowsCurrentImage(initialData, imageFile)
    ensures initialData.Some? && initialData.value.src == "" ==> !ShowsCurrentImage(initialData, imageFile)
    ensures initialData.Some? && initialData.value.src != "" && imageFile.None? ==>
              ShowsCurrentImage(initialData, imageFile)
  {
  }

  /** Adding without a file is refused; editing without a file is accepted
      and sends no "image" entry. */
  lemma ImageRequiredOnlyWhenAdding(title: string, alt: string, m: Picture)
    requires title != "" && alt != ""
    ensures Validate(title, alt, None, None).Err?
    ensures Validate(title, alt, None, Some(m)).Ok?
    ensures !HasKey(Validate(title, alt, None, Some(m)).value, "image")
  {
  }

  class GalleryForm {
    var title: string
    var alt: string
    var imageFile: Option<ImageFile>
    var error: string
    /** `fileInputRef.current`: null until the input is mounted. */
    var fileInput: FileInput?

    constructor (initialData: Option<Picture>, fileInput: FileInput?)
      ensures title == (if initialData.Some? then initialData.value.title else "")
      ensures alt == (if initialData.Some? then initialData.value.alt else "")
      ensures imageFile == None && error == "" && this.fileInput == fileInput
    {
      title := if initialData.Some? then initialData.value.title else "";
      alt := if initialData.Some? then initialData.value.alt else "";
      imageFile := None;
      error := "";
      this.fileInput := fileInput;
    }

    /** The file input's change handler: the first chosen file, or none. */
    method ChooseFile(file: Option<ImageFile>)
      modifies this`imageFile
      ensures imageFile == file
    {
      imageFile := file;
    }

    /** The effect run when `open` or `initialData` changes: when open, title
        and alt text are reloaded, the chosen file and the error are cleared and
        the mounted file input is emptied. */
    method Reset(open: bool, initialData: Option<Picture>)
      modifies this, fileInput
      ensures fileInput == old(fileInput)
      ensures open ==> title == (if initialData.Some? then initialData.value.title else "")
      ensures open ==> alt == (if initialData.Some? then initialData.value.alt else "")
      ensures open ==> imageFile == None && error == ""
      ensures open && fileInput != null ==> fileInput.value == ""
      ensures !open ==> unchanged(this) && (fileInput != null ==> unchanged(fileInput))
    {
      if open {
        title := if initialData.Some? then initialData.value.title else "";
        alt := if initialData.Some? then initialData.value.alt else "";
        imageFile := None;
        error := "";
        if fileInput != null {
          fileInput.value := "";
        }
      }
    }

    /** handleSubmit: builds a fresh FormData by successive appends and
        returns it (what `onSubmit` receives), or null when the form is
        rejected, in which case only the error message changes. */
    method HandleSubmit(initialData: Option<Picture>) returns (sent: FormData?)
      modifies this`error
      ensures var v := Validate(title, alt, imageFile, initialData);
              && (sent != null <==> v.Ok?)
              && (sent != null ==> fresh(sent) && sent.entries == v.value && error == old(error))
              && (sent == null ==> error == RequiredMessage)
    {
      if title == "" || alt == "" || (initialData.None? && imageFile.None?) {
        error := RequiredMessage;
        return null;
      }
      var formData := new FormData();
      formData.Append("title", Text(title));
      formData.Append("alt", Text(alt));
      if imageFile.Some? {
        formData.Append("image", Blob(imageFile.value));
      }
      sent := formData;
    }
  }
}
