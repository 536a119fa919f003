/** Browser objects the image-upload forms use: the multipart FormData they
    build and the file input whose value the reset effect clears. */
module FormParts {

  /** A file chosen in the file input; its bytes are not modelled. */
  datatype ImageFile = ImageFile(fileName: string)

  /** A FormData value: a text field or a file. */
  datatype FormValue = Text(text: string) | Blob(file: ImageFile)

  /** True when some entry of the form carries the given key. */
  predicate HasKey(entries: seq<(string, FormValue)>, key: string) {
    exists i :: 0 <= i < |entries| && entries[i].0 == key
  }

  /** FormData: an ordered list of named entries, grown by `append`. */
  class FormData {
    var entries: seq<(string, FormValue)>

    constructor ()
      ensures entries == []
    {
      entries := [];
    }

    method Append(name: string, value: FormValue)
      modifies this
      ensures entries == old(entries) + [(name, value)]
    {
      entries := entries + [(name, value)];
    }
  }

  /** The `<input type="file">` element behind a ref; only its text value is modelled. */
  class FileInput {
    var value: string

    constructor (value: string)
      ensures this.value == value
    {
      this.value := value;
    }
  }
}
