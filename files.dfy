/**
 * Classifying the files of a selected folder by their names: the JSON schema
 * files, the medical documents, and the extension shown for each document.
 */
module Files {
  import opened Text
  import opened Seqs

  /** A file from the folder picker; only its name matters to the classification. */
  datatype FileEntry = FileEntry(name: string)

  /** The extensions that mark a medical document, with their leading dot. */
  const MedicalExtensions: seq<string> := [".pdf", ".doc", ".docx", ".txt", ".rtf"]

  /** A name that ends in `.json`, whatever its case. */
  predicate IsJsonFile(f: FileEntry) {
    EndsWith(ToLower(f.name), ".json")
  }

  /** A name that ends, whatever its case, in one of the medical extensions. */
  predicate IsMedicalDocument(f: FileEntry) {
    exists k :: 0 <= k < |MedicalExtensions| && EndsWith(ToLower(f.name), MedicalExtensions[k])
  }

  /** A string that ends in a non-empty suffix ends in the suffix's last character. */
  lemma EndsWithLast(s: string, suffix: string)
    ensures EndsWith(s, suffix) && suffix != [] ==> s[|s| - 1] == suffix[|suffix| - 1]
  {
    if EndsWith(s, suffix) && suffix != [] {
      assert s[|s| - |suffix|..][|suffix| - 1] == s[|s| - 1];
    }
  }

  /** No name is both a JSON schema file and a medical document. */
  lemma JsonIsNotMedical(f: FileEntry)
    ensures IsJsonFile(f) ==> !IsMedicalDocument(f)
  {
    var lower := ToLower(f.name);
    EndsWithLast(lower, ".json");
    forall k | 0 <= k < |MedicalExtensions|
      ensures IsJsonFile(f) ==> !EndsWith(lower, MedicalExtensions[k])
    {
      EndsWithLast(lower, MedicalExtensions[k]);
    }
  }

  /** The part of `s` after its last '.', or all of `s` when it has none. */
  function AfterLastDot(s: string): (r: string)
    decreases |s|
    ensures |r| <= |s| && r == s[|s| - |r|..]
    ensures '.' !in r
    ensures |r| < |s| ==> s[|s| - |r| - 1] == '.'
  {
    if s == [] then []
    else if s[|s| - 1] == '.' then []
    else
      var init := s[..|s| - 1];
      var r' := AfterLastDot(init);
      assert s[|s| - |r'| - 1..] == init[|init| - |r'|..] + [s[|s| - 1]];
      r' + [s[|s| - 1]]
  }

  /** `fileName.split('.').pop().toLowerCase()`. */
  function GetFileExtension(fileName: string): string {
    ToLower(AfterLastDot(fileName))
  }

  /** A name `stem + "." + ext` whose `ext` holds no dot has extension `ext`. */
  lemma {:induction false} AfterLastDotOfDotted(stem: string, ext: string)
    requires '.' !in ext
    ensures AfterLastDot(stem + "." + ext) == ext
    decreases |ext|
  {
    var s := stem + "." + ext;
    if ext != [] {
      assert s[..|s| - 1] == stem + "." + ext[..|ext| - 1];
      AfterLastDotOfDotted(stem, ext[..|ext| - 1]);
      assert ext == ext[..|ext| - 1] + [ext[|ext| - 1]];
    }
  }

  /** Lower-casing a string with one more character. */
  lemma ToLowerSnoc(init: string, c: char)
    ensures ToLower(init + [c]) == ToLower(init) + [LowerChar(c)]
  {
    ToLowerAppend(init, [c]);
  }

  /** The extension of a name one character longer than `init`. */
  lemma AfterLastDotSnoc(init: string, c: char)
    ensures AfterLastDot(init + [c]) == if c == '.' then [] else AfterLastDot(init) + [c]
  {
    assert (init + [c])[..|init|] == init;
  }

  /** Taking the extension commutes with lower-casing ('.' is not a letter). */
  lemma {:induction false} AfterLastDotToLower(s: string)
    ensures ToLower(AfterLastDot(s)) == AfterLastDot(ToLower(s))
    decreases |s|
  {
    if s != [] {
      var init, last := s[..|s| - 1], s[|s| - 1];
      assert s == init + [last];
      ToLowerSnoc(init, last);
      AfterLastDotSnoc(init, last);
      AfterLastDotSnoc(ToLower(init), LowerChar(last));
      if last != '.' {
        assert LowerChar(last) != '.';
        AfterLastDotToLower(init);
        ToLowerSnoc(AfterLastDot(init), last);
      }
    }
  }

  /** A name whose lower-cased form ends in `"." + ext` has the extension `ext`. */
  lemma ExtensionOfSuffix(name: string, ext: string)
    requires '.' !in ext
    requires EndsWith(ToLower(name), "." + ext)
    ensures GetFileExtension(name) == ext
  {
    var lower := ToLower(name);
    var stem := lower[..|lower| - |ext| - 1];
    assert lower == stem + "." + ext;
    AfterLastDotOfDotted(stem, ext);
    AfterLastDotToLower(name);
  }

  /** Each medical extension is a dot followed by a dot-free word. */
  lemma MedicalExtensionsShape()
    ensures forall k :: 0 <= k < |MedicalExtensions| ==>
              && |MedicalExtensions[k]| > 0 && MedicalExtensions[k][0] == '.'
              && '.' !in MedicalExtensions[k][1..]
              && MedicalExtensions[k][1..] in {"pdf", "doc", "docx", "txt", "rtf"}
  {
    forall k | 0 <= k < |MedicalExtensions|
      ensures && |MedicalExtensions[k]| > 0 && MedicalExtensions[k][0] == '.'
              && '.' !in MedicalExtensions[k][1..]
              && MedicalExtensions[k][1..] in {"pdf", "doc", "docx", "txt", "rtf"}
    {
      if k == 0 {
        assert MedicalExtensions[k][1..] == "pdf";
      } else if k == 1 {
        assert MedicalExtensions[k][1..] == "doc";
      } else if k == 2 {
        assert MedicalExtensions[k][1..] == "docx";
      } else if k == 3 {
        assert MedicalExtensions[k][1..] == "txt";
      } else {
        assert MedicalExtensions[k][1..] == "rtf";
      }
    }
  }

  /** The extension shown for a medical document is the one that made it one. */
  lemma MedicalDocumentExtension(f: FileEntry)
    requires IsMedicalDocument(f)
    ensures GetFileExtension(f.name) in {"pdf", "doc", "docx", "txt", "rtf"}
  {
    var k :| 0 <= k < |MedicalExtensions| && EndsWith(ToLower(f.name), MedicalExtensions[k]);
    MedicalExtensionsShape();
    var dotted := MedicalExtensions[k];
    var ext := dotted[1..];
    assert dotted == "." + ext;
    ExtensionOfSuffix(f.name, ext);
  }

  /** A JSON schema file has the extension "json". */
  lemma JsonFileExtension(f: FileEntry)
    requires IsJsonFile(f)
    ensures GetFileExtension(f.name) == "json"
  {
    ExtensionOfSuffix(f.name, "json");
  }

  /** The JSON schema files of a selection, in selection order. */
  function JsonFiles(files: seq<FileEntry>): seq<FileEntry> {
    Filter(files, IsJsonFile)
  }

  /**
   * Whether `handleFolderSelection` files an entry under the medical documents:
   * the JSON test comes first, so only a file that is not a JSON file.
   */
  predicate IsListedDocument(f: FileEntry) {
    !IsJsonFile(f) && IsMedicalDocument(f)
  }

  /** The medical documents of a selection, in selection order. */
  function MedicalDocuments(files: seq<FileEntry>): seq<FileEntry> {
    Filter(files, IsListedDocument)
  }

  /**
   * The folder partition: the two lists are in-order sub-lists of the
   * selection; the JSON list holds every JSON file as often as it occurs, the
   * document list every medical document that is not a JSON file, and
   * nothing else.
   */
  lemma PartitionSpec(files: seq<FileEntry>)
    ensures IsSubsequence(JsonFiles(files), files) && IsSubsequence(MedicalDocuments(files), files)
    ensures forall f :: multiset(JsonFiles(files))[f] == if IsJsonFile(f) then multiset(files)[f] else 0
    ensures forall f :: multiset(MedicalDocuments(files))[f] ==
              if IsMedicalDocument(f) && !IsJsonFile(f) then multiset(files)[f] else 0
  {
    FilterIsSubsequence(files, IsJsonFile);
    FilterIsSubsequence(files, IsListedDocument);
    FilterCount(files, IsJsonFile);
    FilterCount(files, IsListedDocument);
  }

  /** No file is in both lists. */
  lemma PartitionDisjoint(files: seq<FileEntry>)
    ensures forall f :: !(f in JsonFiles(files) && f in MedicalDocuments(files))
  {
    FilterPasses(files, IsJsonFile);
    FilterPasses(files, IsListedDocument);
  }

  /** Every medical document of the selection is listed as one. */
  lemma PartitionKeepsDocuments(files: seq<FileEntry>)
    ensures forall f :: IsMedicalDocument(f) ==> (f in MedicalDocuments(files) <==> f in files)
  {
    FilterCount(files, IsListedDocument);
    forall f | IsMedicalDocument(f)
      ensures f in MedicalDocuments(files) <==> f in files
    {
      JsonIsNotMedical(f);
      assert f in MedicalDocuments(files) <==> f in multiset(MedicalDocuments(files));
    }
  }

  /** The two lists together are no longer than the selection: other files are dropped. */
  lemma PartitionSize(files: seq<FileEntry>)
    ensures |JsonFiles(files)| + |MedicalDocuments(files)| <= |files|
  {
    FilterCount(files, IsJsonFile);
    FilterCount(files, IsListedDocument);
    var js, ms := multiset(JsonFiles(files)), multiset(MedicalDocuments(files));
    forall f ensures (js + ms)[f] <= multiset(files)[f] {
      JsonIsNotMedical(f);
    }
    MultisetSubsetSize(js + ms, multiset(files));
  }
}
