/**
 * The searchable select box and the drag-and-drop file upload of the form-input kit.
 */
module FormInputs {
  import opened Base
  import opened Text

  // ===========================================================================
  // Select input

  /** One entry of the select box; `caption` is the text shown for it. */
  datatype SelectOption = SelectOption(value: string, caption: string, disabled: bool)

  const DefaultPlaceholder: string := "Select an option"

  /** The case-insensitive substring test the search box applies to an option's caption. */
  predicate MatchesSearch(o: SelectOption, searchTerm: string) {
    Contains(ToLower(o.caption), ToLower(searchTerm))
  }

  /** The options listed in the open dropdown: those whose caption contains the search term, in order. */
  function FilteredOptions(options: seq<SelectOption>, searchTerm: string): (r: seq<SelectOption>)
    ensures |r| <= |options|
    ensures forall i :: 0 <= i < |r| ==> r[i] in options && MatchesSearch(r[i], searchTerm)
    ensures forall i :: 0 <= i < |options| && MatchesSearch(options[i], searchTerm) ==> options[i] in r
  {
    Filter(options, (o: SelectOption) => MatchesSearch(o, searchTerm))
  }

  /** With an empty search box every option is listed, in its original order. */
  lemma EmptySearchListsAll(options: seq<SelectOption>)
    ensures FilteredOptions(options, "") == options
  {
    forall i | 0 <= i < |options| ensures MatchesSearch(options[i], "") {
      ContainsEmpty(ToLower(options[i].caption));
    }
    FilterKeepsAll(options, (o: SelectOption) => MatchesSearch(o, ""));
  }

  /** Searching keeps the options' relative order: it commutes with splitting the option list. */
  lemma FilteredOptionsKeepOrder(a: seq<SelectOption>, b: seq<SelectOption>, searchTerm: string)
    ensures FilteredOptions(a + b, searchTerm) == FilteredOptions(a, searchTerm) + FilteredOptions(b, searchTerm)
  {
    FilterConcat(a, b, (o: SelectOption) => MatchesSearch(o, searchTerm));
  }

  /** The search ignores the letter case of both the caption and the term. */
  lemma SearchIgnoresCase()
    ensures MatchesSearch(SelectOption("us", "United States", false), "UNITED")
    ensures MatchesSearch(SelectOption("us", "United States", false), "states")
    ensures !MatchesSearch(SelectOption("ca", "Canada", false), "states")
  {
    assert ToLower("United States") == "united states";
    assert ToLower("UNITED") == "united";
    assert OccursAt("united states", "united", 0);
    assert ToLower("states") == "states";
    assert OccursAt("united states", "states", 7);
    assert ToLower("Canada") == "canada";
    assert !OccursAt("canada", "states", 0) by { assert "canada"[0] != "states"[0]; }
  }

  /** `k` is the first position whose option has the value `value`. */
  predicate FirstWithValue(options: seq<SelectOption>, value: string, k: int) {
    0 <= k < |options| && options[k].value == value && forall j :: 0 <= j < k ==> options[j].value != value
  }

  /** The option shown as chosen: the first one whose value equals the current value. */
  function SelectedOption(options: seq<SelectOption>, value: string): (r: Option<SelectOption>)
    ensures r.None? <==> forall i :: 0 <= i < |options| ==> options[i].value != value
    ensures r.Some? ==> exists k :: FirstWithValue(options, value, k) && options[k] == r.value
  {
    if options == [] then None
    else if options[0].value == value then Some(options[0])
    else
      var rest := SelectedOption(options[1..], value);
      assert rest.Some? ==> exists k :: FirstWithValue(options, value, k) && options[k] == rest.value by {
        if rest.Some? {
          var k :| FirstWithValue(options[1..], value, k) && options[1..][k] == rest.value;
          assert options[k + 1] == rest.value;
          forall j | 0 <= j < k + 1 ensures options[j].value != value {
            if j > 0 { assert options[j] == options[1..][j - 1]; }
          }
          assert FirstWithValue(options, value, k + 1);
        }
      }
      rest
  }

  /** The text on the closed select box: the chosen option's caption, else the placeholder. */
  function DisplayText(options: seq<SelectOption>, value: string, placeholder: string): string {
    match SelectedOption(options, value)
    case Some(o) => o.caption
    case None => placeholder
  }

  /** The clear button is shown only when clearing is enabled and some option is chosen. */
  predicate ClearButtonShown(clearable: bool, options: seq<SelectOption>, value: string) {
    clearable && SelectedOption(options, value).Some?
  }

  /** An option carries `aria-selected` when its value is the current value. */
  predicate AriaSelected(o: SelectOption, value: string) {
    o.value == value
  }

  /**
   * Choosing an option that no earlier option shares a value with makes the box display that
   * option's caption, and a clearable box then offers the clear button.
   */
  lemma SelectThenDisplay(options: seq<SelectOption>, k: nat, placeholder: string)
    requires k < |options|
    requires forall j :: 0 <= j < k ==> options[j].value != options[k].value
    ensures DisplayText(options, options[k].value, placeholder) == options[k].caption
    ensures ClearButtonShown(true, options, options[k].value)
  {
    var r := SelectedOption(options, options[k].value);
    var m :| FirstWithValue(options, options[k].value, m) && options[m] == r.value;
    assert m == k;
  }

  /**
   * After clearing, no option whose value is non-empty is shown as chosen: the box shows the
   * placeholder, "Select an option" when none is given, and no clear button.
   */
  lemma ClearedShowsPlaceholder(options: seq<SelectOption>, placeholder: string)
    requires forall i :: 0 <= i < |options| ==> options[i].value != ""
    ensures DisplayText(options, "", placeholder) == placeholder
    ensures DisplayText(options, "", DefaultPlaceholder) == "Select an option"
    ensures !ClearButtonShown(true, options, "")
  {
  }

  /** The dropdown's own state; the chosen value belongs to the parent and is reported through the return values. */
  class SelectInputState {
    const options: seq<SelectOption>
    const disabled: bool
    var isOpen: bool
    var searchTerm: string

    constructor(options: seq<SelectOption>, disabled: bool)
      ensures this.options == options && this.disabled == disabled
      ensures !isOpen && searchTerm == ""
    {
      this.options := options;
      this.disabled := disabled;
      isOpen := false;
      searchTerm := "";
    }

    /** The options currently listed in the dropdown. */
    function Listed(): (r: seq<SelectOption>)
      reads this
      ensures forall i :: 0 <= i < |r| ==> r[i] in options && MatchesSearch(r[i], searchTerm)
    {
      FilteredOptions(options, searchTerm)
    }

    /** Clicking the box toggles the dropdown unless the input is disabled. */
    method Toggle()
      modifies this`isOpen
      ensures isOpen == if disabled then old(isOpen) else !old(isOpen)
    {
      if !disabled {
        isOpen := !isOpen;
      }
    }

    /** Typing in the search box. */
    method EditSearch(term: string)
      modifies this`searchTerm
      ensures searchTerm == term
    {
      searchTerm := term;
    }

    /** `handleSelect`: reports the value, closes the dropdown and empties the search. */
    method HandleSelect(optionValue: string) returns (emitted: string)
      modifies this`isOpen, this`searchTerm
      ensures emitted == optionValue && !isOpen && searchTerm == ""
    {
      emitted := optionValue;
      isOpen, searchTerm := false, "";
    }

    /** A click on the listed option at `index`: disabled options ignore it. */
    method ClickOption(index: nat) returns (emitted: Option<string>)
      requires index < |Listed()|
      modifies this`isOpen, this`searchTerm
      ensures var o := old(Listed())[index];
        if o.disabled then emitted == None && isOpen == old(isOpen) && searchTerm == old(searchTerm)
        else emitted == Some(o.value) && o in options && !isOpen && searchTerm == ""
    {
      var o := Listed()[index];
      if o.disabled {
        emitted := None;
      } else {
        var v := HandleSelect(o.value);
        emitted := Some(v);
      }
    }

    /** `handleClear`: reports the empty value and empties the search; the dropdown stays as it was. */
    method HandleClear() returns (emitted: string)
      modifies this`searchTerm
      ensures emitted == "" && searchTerm == ""
    {
      emitted := "";
      searchTerm := "";
    }
  }

  // ===========================================================================
  // File upload

  /** A chosen file: its name and its size in bytes. */
  datatype File = File(name: string, size: int)

  /** A validation message, kept as data; the rendered text formats the limit in megabytes. */
  datatype FileError = TooLarge(fileName: string, maxSize: nat) | TooMany(maxFiles: nat)

  /** The default file-count limit when none is given. */
  const DefaultMaxFiles: nat := 1

  /** A file over the size limit; a limit of 0 stands for "no limit", as a falsy `maxSize` does. */
  predicate Oversized(f: File, maxSize: nat) {
    maxSize != 0 && f.size > maxSize
  }

  /** The files that pass the size check, in order. */
  function Fits(files: seq<File>, maxSize: nat): (r: seq<File>)
    ensures forall i :: 0 <= i < |r| ==> r[i] in files && !Oversized(r[i], maxSize)
    ensures forall i :: 0 <= i < |files| && !Oversized(files[i], maxSize) ==> files[i] in r
  {
    Filter(files, (f: File) => !Oversized(f, maxSize))
  }

  /** One `TooLarge` message per oversized file, in file order. */
  function SizeErrors(files: seq<File>, maxSize: nat): (r: seq<FileError>)
    ensures |r| <= |files|
    ensures forall i :: 0 <= i < |r| ==> r[i].TooLarge? && r[i].maxSize == maxSize
  {
    if files == [] then []
    else
      var last := files[|files| - 1];
      SizeErrors(files[..|files| - 1], maxSize) + (if Oversized(last, maxSize) then [TooLarge(last.name, maxSize)] else [])
  }

  /** The files over the size limit, in order. */
  function OversizedFiles(files: seq<File>, maxSize: nat): (r: seq<File>)
    ensures forall i :: 0 <= i < |r| ==> r[i] in files && Oversized(r[i], maxSize)
    ensures forall i :: 0 <= i < |files| && Oversized(files[i], maxSize) ==> files[i] in r
  {
    Filter(files, (f: File) => Oversized(f, maxSize))
  }

  /** One message per oversized file, naming it, in file order; every other file fits. */
  lemma {:induction false} SizeErrorsPerOversizedFile(files: seq<File>, maxSize: nat)
    ensures |SizeErrors(files, maxSize)| == |OversizedFiles(files, maxSize)|
    ensures forall i :: 0 <= i < |SizeErrors(files, maxSize)| ==>
      SizeErrors(files, maxSize)[i] == TooLarge(OversizedFiles(files, maxSize)[i].name, maxSize)
    ensures |SizeErrors(files, maxSize)| + |Fits(files, maxSize)| == |files|
  {
    if files != [] {
      var n := |files| - 1;
      SizeErrorsPerOversizedFile(files[..n], maxSize);
      FilterSnoc(files, n, (f: File) => Oversized(f, maxSize));
      FilterSnoc(files, n, (f: File) => !Oversized(f, maxSize));
      assert files[..n + 1] == files;
    }
  }

  /** There are no size errors exactly when no file is oversized. */
  lemma {:induction false} SizeErrorsEmptyIff(files: seq<File>, maxSize: nat)
    ensures SizeErrors(files, maxSize) == [] <==> forall i :: 0 <= i < |files| ==> !Oversized(files[i], maxSize)
  {
    if files != [] {
      var init := files[..|files| - 1];
      SizeErrorsEmptyIff(init, maxSize);
      if forall i :: 0 <= i < |init| ==> !Oversized(init[i], maxSize) {
        if !Oversized(files[|files| - 1], maxSize) {
          forall i | 0 <= i < |files| ensures !Oversized(files[i], maxSize) {
            if i < |init| { assert files[i] == init[i]; }
          }
        }
      } else {
        var i :| 0 <= i < |init| && Oversized(init[i], maxSize);
        assert files[i] == init[i];
      }
    }
  }

  /** The outcome of validating a batch of files. */
  datatype Validation = Validation(valid: seq<File>, errors: seq<FileError>)

  /** What `validateFiles` returns: the files that fit, cut to the count limit, with their messages. */
  function Validate(files: seq<File>, maxSize: nat, maxFiles: nat): (r: Validation)
    ensures |r.valid| <= |files|
    ensures |SizeErrors(files, maxSize)| <= |r.errors| <= |SizeErrors(files, maxSize)| + 1
    ensures r.errors[..|SizeErrors(files, maxSize)|] == SizeErrors(files, maxSize)
    ensures |r.errors| > |SizeErrors(files, maxSize)| ==> r.errors[|r.errors| - 1] == TooMany(maxFiles)
  {
    var fits := Fits(files, maxSize);
    var errors := SizeErrors(files, maxSize);
    if maxFiles != 0 && |fits| > maxFiles then Validation(fits[..maxFiles], errors + [TooMany(maxFiles)])
    else Validation(fits, errors)
  }

  /**
   * The accepted files are within the size limit and are the first `maxFiles` of those that fit
   * (all of them when the limit is 0); the count message is added exactly when too many fit.
   */
  lemma ValidateBounds(files: seq<File>, maxSize: nat, maxFiles: nat)
    ensures var v := Validate(files, maxSize, maxFiles);
      && (forall i :: 0 <= i < |v.valid| ==> v.valid[i] in files && !Oversized(v.valid[i], maxSize))
      && (maxFiles != 0 ==> |v.valid| <= maxFiles)
      && v.valid == Fits(files, maxSize)[..|v.valid|]
      && |v.valid| == (if maxFiles != 0 then Min(maxFiles, |Fits(files, maxSize)|) else |Fits(files, maxSize)|)
      && (|v.errors| == |SizeErrors(files, maxSize)| + 1 <==> maxFiles != 0 && |Fits(files, maxSize)| > maxFiles)
  {
    var fits := Fits(files, maxSize);
    var v := Validate(files, maxSize, maxFiles);
    forall i | 0 <= i < |v.valid| ensures v.valid[i] in files && !Oversized(v.valid[i], maxSize) {
      assert v.valid[i] == fits[i];
    }
  }

  /** A batch produces no message exactly when every file fits and there are not too many of them. */
  lemma ValidateErrorsIff(files: seq<File>, maxSize: nat, maxFiles: nat)
    ensures Validate(files, maxSize, maxFiles).errors == [] <==>
      && (forall i :: 0 <= i < |files| ==> !Oversized(files[i], maxSize))
      && !(maxFiles != 0 && |Fits(files, maxSize)| > maxFiles)
  {
    SizeErrorsEmptyIff(files, maxSize);
  }

  /**
   * An upload given no `maxFiles` keeps at most one file and, as soon as two or more fit, keeps
   * the first of them and adds the count message; three files and no size limit show it.
   */
  lemma DefaultMaxFilesKeepsOne(files: seq<File>, maxSize: nat, a: File, b: File, c: File)
    ensures |Validate(files, maxSize, DefaultMaxFiles).valid| <= 1
    ensures |Fits(files, maxSize)| >= 2 ==>
      (Validate(files, maxSize, DefaultMaxFiles)
       == Validation([Fits(files, maxSize)[0]], SizeErrors(files, maxSize) + [TooMany(1)]))
    ensures Validate([a, b, c], 0, DefaultMaxFiles) == Validation([a], [TooMany(1)])
  {
    NoLimitsAcceptsAll([a, b, c]);
  }

  /** Without limits every file is accepted, in order. */
  lemma NoLimitsAcceptsAll(files: seq<File>)
    ensures Validate(files, 0, 0) == Validation(files, [])
  {
    FilterKeepsAll(files, (f: File) => !Oversized(f, 0));
    SizeErrorsEmptyIff(files, 0);
  }

  /** `validateFiles`: one pass over the files, then the count check. */
  method ValidateFiles(files: seq<File>, maxSize: nat, maxFiles: nat) returns (valid: seq<File>, errors: seq<FileError>)
    ensures Validation(valid, errors) == Validate(files, maxSize, maxFiles)
  {
    ghost var keep := (f: File) => !Oversized(f, maxSize);
    valid, errors := [], [];
    var i := 0;
    while i < |files|
      invariant 0 <= i <= |files|
      invariant valid == Filter(files[..i], keep)
      invariant errors == SizeErrors(files[..i], maxSize)
    {
      var file := files[i];
      FilterSnoc(files, i, keep);
      assert files[..i + 1][..i] == files[..i];
      if maxSize != 0 && file.size > maxSize {
        errors := errors + [TooLarge(file.name, maxSize)];
        i := i + 1;
        continue;
      }
      valid := valid + [file];
      i := i + 1;
    }
    assert files[..i] == files;
    if maxFiles != 0 && |valid| > maxFiles {
      errors := errors + [TooMany(maxFiles)];
      valid := valid[..maxFiles];
      return;
    }
  }

  /** `uploadedFiles.filter((_, i) => i !== index)`: the file at `index` dropped, any other index a no-op. */
  function WithoutIndex(files: seq<File>, index: int): (r: seq<File>)
    ensures 0 <= index < |files| ==>
      (|r| == |files| - 1
       && (forall j :: 0 <= j < index ==> r[j] == files[j])
       && (forall j :: index <= j < |r| ==> r[j] == files[j + 1]))
    ensures !(0 <= index < |files|) ==> r == files
  {
    if 0 <= index < |files| then files[..index] + files[index + 1..] else files
  }

  /** Removing a file keeps every other uploaded file and the multiset shrinks by exactly that file. */
  lemma WithoutIndexRemovesOne(files: seq<File>, index: nat)
    requires index < |files|
    ensures multiset(WithoutIndex(files, index)) + multiset{files[index]} == multiset(files)
  {
    assert files == files[..index] + [files[index]] + files[index + 1..];
  }

  class FileUploadState {
    const disabled: bool
    const maxSize: nat
    const maxFiles: nat
    var isDragOver: bool
    var uploadedFiles: seq<File>

    constructor(disabled: bool, maxSize: nat, maxFiles: nat)
      ensures this.disabled == disabled && this.maxSize == maxSize && this.maxFiles == maxFiles
      ensures !isDragOver && uploadedFiles == []
    {
      this.disabled := disabled;
      this.maxSize := maxSize;
      this.maxFiles := maxFiles;
      isDragOver := false;
      uploadedFiles := [];
    }

    /** The limits hold for the uploaded list. */
    ghost predicate Valid()
      reads this
    {
      && (forall i :: 0 <= i < |uploadedFiles| ==> !Oversized(uploadedFiles[i], maxSize))
      && (maxFiles != 0 ==> |uploadedFiles| <= maxFiles)
    }

    /** `handleFiles`: a missing file list is ignored; otherwise the validated files replace the list and are reported. */
    method HandleFiles(files: Option<seq<File>>) returns (emitted: Option<seq<File>>)
      requires Valid()
      modifies this`uploadedFiles
      ensures Valid()
      ensures files.None? ==> emitted.None? && uploadedFiles == old(uploadedFiles)
      ensures files.Some? ==> uploadedFiles == Validate(files.value, maxSize, maxFiles).valid && emitted == Some(uploadedFiles)
    {
      if files.None? {
        return None;
      }
      var valid, errors := ValidateFiles(files.value, maxSize, maxFiles);
      ValidateBounds(files.value, maxSize, maxFiles);
      uploadedFiles := valid;
      emitted := Some(valid);
    }

    /** `handleDragOver`: highlights the drop zone unless disabled. */
    method HandleDragOver()
      modifies this`isDragOver
      ensures isDragOver == (old(isDragOver) || !disabled)
    {
      if !disabled {
        isDragOver := true;
      }
    }

    /** `handleDragLeave`. */
    method HandleDragLeave()
      modifies this`isDragOver
      ensures !isDragOver
    {
      isDragOver := false;
    }

    /** `handleDrop`: always clears the highlight; the files are taken only when not disabled. */
    method HandleDrop(files: Option<seq<File>>) returns (emitted: Option<seq<File>>)
      requires Valid()
      modifies this`isDragOver, this`uploadedFiles
      ensures Valid()
      ensures !isDragOver
      ensures disabled ==> emitted.None? && uploadedFiles == old(uploadedFiles)
      ensures !disabled && files.Some? ==> uploadedFiles == Validate(files.value, maxSize, maxFiles).valid && emitted == Some(uploadedFiles)
      ensures files.None? ==> emitted.None? && uploadedFiles == old(uploadedFiles)
    {
      isDragOver := false;
      emitted := None;
      if !disabled {
        emitted := HandleFiles(files);
      }
    }

    /** `removeFile(index)`: the list without that position, reported to the parent. */
    method RemoveFile(index: int) returns (emitted: seq<File>)
      requires Valid()
      modifies this`uploadedFiles
      ensures Valid()
      ensures uploadedFiles == WithoutIndex(old(uploadedFiles), index) && emitted == uploadedFiles
    {
      uploadedFiles := WithoutIndex(uploadedFiles, index);
      emitted := uploadedFiles;
    }
  }
}
