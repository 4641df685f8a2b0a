/** `src/utils/files.ts`: upload validation and file-name extensions. */
module Files {
  import opened Wrappers
  import opened Types
  import opened Strings

  const MaxFileSize: nat := 10 * 1024 * 1024

  /** The accepted MIME types, each with the extensions that also admit a file. */
  const AcceptedFileTypes: seq<(string, seq<string>)> := [
    ("application/pdf", [".pdf"]),
    ("image/png", [".png"]),
    ("image/jpeg", [".jpg", ".jpeg"]),
    ("application/msword", [".doc"]),
    ("application/vnd.openxmlformats-officedocument.wordprocessingml.document", [".docx"])
  ]

  const TooLargeMessage: string := "Файл слишком большой. Максимальный размер: " + NatToString(MaxFileSize / 1024 / 1024) + "MB"
  const UnsupportedTypeMessage := "Неподдерживаемый тип файла. Разрешены: PDF, DOC, DOCX, PNG, JPG"

  /** One entry of the table admits the file: by its MIME type or by one of its extensions. */
  predicate EntryAdmits(fileType: string, name: string, entry: (string, seq<string>)) {
    fileType == entry.0 || exists k :: 0 <= k < |entry.1| && EndsWith(Lower(name), entry.1[k])
  }

  /** `isValidType`: some entry of the table admits the file. */
  predicate IsValidType(file: File) {
    exists k :: 0 <= k < |AcceptedFileTypes| && EntryAdmits(Lower(file.mimeType), file.name, AcceptedFileTypes[k])
  }

  /** `validateFile`: the size bound first, then the type. */
  function ValidateFile(file: File): (r: FileValidation)
    ensures file.Size() > MaxFileSize ==> r == FileValidation(false, Some(TooLargeMessage))
    ensures r.valid <==> file.Size() <= MaxFileSize && IsValidType(file)
    ensures r.valid ==> r.error.None?
    ensures !r.valid && file.Size() <= MaxFileSize ==> r.error == Some(UnsupportedTypeMessage)
  {
    if file.Size() > MaxFileSize then FileValidation(false, Some(TooLargeMessage))
    else if !IsValidType(file) then FileValidation(false, Some(UnsupportedTypeMessage))
    else FileValidation(true, None)
  }

  lemma EntryAdmitsOne(t: string, n: string, mime: string, ext: string)
    ensures EntryAdmits(t, n, (mime, [ext])) <==> t == mime || EndsWith(Lower(n), ext)
  {
    if EndsWith(Lower(n), ext) { assert [ext][0] == ext; }
  }

  lemma EntryAdmitsTwo(t: string, n: string, mime: string, ext1: string, ext2: string)
    ensures EntryAdmits(t, n, (mime, [ext1, ext2])) <==> t == mime || EndsWith(Lower(n), ext1) || EndsWith(Lower(n), ext2)
  {
    if EndsWith(Lower(n), ext1) { assert [ext1, ext2][0] == ext1; }
    if EndsWith(Lower(n), ext2) { assert [ext1, ext2][1] == ext2; }
  }

  /** The table read out: five MIME types and six extensions. */
  lemma IsValidTypeIff(file: File)
    ensures IsValidType(file) <==>
      Lower(file.mimeType) in {"application/pdf", "image/png", "image/jpeg", "application/msword",
                               "application/vnd.openxmlformats-officedocument.wordprocessingml.document"} ||
      exists ext :: ext in {".pdf", ".png", ".jpg", ".jpeg", ".doc", ".docx"} && EndsWith(Lower(file.name), ext)
  {
    var t, n := Lower(file.mimeType), file.name;
    EntryAdmitsOne(t, n, "application/pdf", ".pdf");
    EntryAdmitsOne(t, n, "image/png", ".png");
    EntryAdmitsTwo(t, n, "image/jpeg", ".jpg", ".jpeg");
    EntryAdmitsOne(t, n, "application/msword", ".doc");
    EntryAdmitsOne(t, n, "application/vnd.openxmlformats-officedocument.wordprocessingml.document", ".docx");
    var accepts := seq(5, k requires 0 <= k < 5 => EntryAdmits(t, n, AcceptedFileTypes[k]));
    assert IsValidType(file) <==> accepts[0] || accepts[1] || accepts[2] || accepts[3] || accepts[4];
  }

  /** The bound is inclusive: a file of exactly 10 MiB passes the size test. */
  lemma ExactLimitPasses(file: File)
    requires file.Size() == 10 * 1024 * 1024
    ensures ValidateFile(file).valid <==> IsValidType(file)
  {
  }

  /** `x >>> 0`: the unsigned 32-bit value of `x`. */
  function ToUint32(x: int): (r: nat)
    ensures r < 0x1_0000_0000
  {
    x % 0x1_0000_0000
  }

  /** `s.slice(start)` for a non-negative `start`. */
  function SliceFrom(s: string, start: nat): string {
    if start >= |s| then "" else s[start..]
  }

  /**
   * `getFileExtension`: `lastIndexOf('.') - 1 >>> 0` turns -1 (no dot) and 0
   * (a leading dot only) into 2^32 - 2 and 2^32 - 1, past the end of any name.
   */
  function GetFileExtension(filename: string): string {
    Lower(SliceAtDot(filename, LastIndexOf(filename, '.')))
  }

  /** `filename.slice((d - 1 >>> 0) + 2)`: the slice taken after a dot at `d`. */
  function SliceAtDot(filename: string, d: int): string {
    SliceFrom(filename, ToUint32(d - 1) + 2)
  }

  /**
   * Where `getFileExtension` slices, given the position `d` of the last dot
   * (-1 for none) in a name shorter than 2^32 characters: `-1 - 1 >>> 0` and
   * `0 - 1 >>> 0` are 2^32 - 2 and 2^32 - 1, past the end of the name.
   */
  lemma SliceAfterDot(filename: string, d: int)
    requires |filename| < 0x1_0000_0000 && -1 <= d < |filename|
    ensures d >= 1 ==> SliceAtDot(filename, d) == filename[d + 1..]
    ensures d <= 0 ==> SliceAtDot(filename, d) == ""
  {
    if d == 0 {
      assert (0 - 1) % 0x1_0000_0000 == 0xFFFF_FFFF;
    } else if d == -1 {
      assert (-1 - 1) % 0x1_0000_0000 == 0xFFFF_FFFE;
    }
  }

  /**
   * For any name shorter than 2^32 characters (JavaScript engines cap
   * strings far below that): the extension is empty when there is no dot or
   * the only dot leads, otherwise it is the lower-cased text after the last
   * dot.
   */
  lemma GetFileExtensionSpec(filename: string)
    requires |filename| < 0x1_0000_0000
    ensures var d := LastIndexOf(filename, '.');
      && (d >= 1 ==> GetFileExtension(filename) == Lower(filename[d + 1..]))
      && (d <= 0 ==> GetFileExtension(filename) == "")
  {
    var d := LastIndexOf(filename, '.');
    var tail := SliceAtDot(filename, d);
    assert GetFileExtension(filename) == Lower(tail);
    SliceAfterDot(filename, d);
    if d <= 0 {
      assert |Lower(tail)| == 0;
    } else {
      assert tail == filename[d + 1..];
      assert Lower(tail) == Lower(filename[d + 1..]);
    }
  }

  /** An extension never contains a dot. */
  lemma GetFileExtensionHasNoDot(filename: string)
    requires |filename| < 0x1_0000_0000
    ensures forall i :: 0 <= i < |GetFileExtension(filename)| ==> GetFileExtension(filename)[i] != '.'
  {
    var d := LastIndexOf(filename, '.');
    GetFileExtensionSpec(filename);
    if d >= 1 {
      NoDotAfter(filename, d, filename[d + 1..]);
    }
  }

  /** Past the last dot the name holds no dot, and lower-casing adds none. */
  lemma NoDotAfter(filename: string, d: int, tail: string)
    requires d == LastIndexOf(filename, '.') && 0 <= d && tail == filename[d + 1..]
    ensures forall i :: 0 <= i < |Lower(tail)| ==> Lower(tail)[i] != '.'
  {
    forall i | 0 <= i < |tail| ensures Lower(tail)[i] != '.' {
      assert tail[i] == filename[d + 1 + i];
    }
  }
}
