/** The upload form's file guard: the lowercased suffix of the file name
    must be `.csv` or `.xlsx`, and the file may be at most 25 MB; the
    extension is judged first. */
module ConfigForms {
  import opened Common
  import UploadService

  /** What the guard sees of an uploaded file. */
  datatype UploadedFile = UploadedFile(name: string, size: nat)

  const AllowedExtensions: set<string> := {".csv", ".xlsx"}

  /** 25 * 1024 * 1024 bytes. */
  const MaxUploadSize: nat := 26214400

  const ExtensionError: string := "Envie um arquivo CSV ou XLSX."
  const SizeError: string := "Arquivo muito grande. Limite de 25 MB."

  predicate AllowedName(name: string) {
    Lower(PathSuffix(name)) in AllowedExtensions
  }

  /** `UploadForm.clean_file`. */
  function CleanFile(f: UploadedFile): (r: Result<UploadedFile, string>)
    ensures r.Ok? <==> AllowedName(f.name) && f.size <= MaxUploadSize
    ensures r.Ok? ==> r.value == f
    ensures !AllowedName(f.name) ==> r == Err(ExtensionError)
    ensures AllowedName(f.name) && f.size > MaxUploadSize ==> r == Err(SizeError)
  {
    var extension := Lower(PathSuffix(f.name));
    if extension !in AllowedExtensions then Err(ExtensionError)
    else if f.size > MaxUploadSize then Err(SizeError)
    else Ok(f)
  }

  /** The limit is inclusive, whatever the name: a file of exactly 25 MB
      is refused only for its extension, one byte more only for its size
      once the extension is acceptable. */
  lemma SizeLimitInclusive(name: string)
    ensures CleanFile(UploadedFile(name, MaxUploadSize)).Ok? <==> AllowedName(name)
    ensures AllowedName(name) ==> CleanFile(UploadedFile(name, MaxUploadSize + 1)) == Err(SizeError)
    ensures MaxUploadSize == 25 * 1024 * 1024
  {
  }

  /** Every file the form accepts is one whose format the upload service
      dispatches on, and the service reads the same suffix. */
  lemma AcceptedFileIsDispatched(f: UploadedFile)
    ensures CleanFile(f).Ok? ==> UploadService.UploadFormat(f.name).Ok?
    ensures AllowedName(f.name) <==> UploadService.UploadFormat(f.name).Ok?
  {
    AllowedExtension(Lower(PathSuffix(f.name)));
    DispatchedExtension(f.name);
  }

  lemma AllowedExtension(ext: string)
    ensures ext in AllowedExtensions <==> ext == ".csv" || ext == ".xlsx"
  {
  }

  lemma DispatchedExtension(name: string)
    ensures UploadService.UploadFormat(name).Ok? <==>
      Lower(PathSuffix(name)) == ".csv" || Lower(PathSuffix(name)) == ".xlsx"
  {
    var r := UploadService.UploadFormat(name);
    assert r.Ok? <==> r == Ok(UploadService.Csv) || r == Ok(UploadService.Xlsx);
  }
}
