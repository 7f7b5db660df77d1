/**
 * The upload guards the advance route applies before any parsing: the
 * filename test `_is_valid_csv_file`, the batch test `_validate_csv_files`,
 * and the blank-content test at the top of `_parse_csv_content`.
 */
module Uploads {
  import opened Wrappers
  import opened Strings

  /** An uploaded file: the client may send no filename at all. */
  datatype Upload = Upload(filename: Option<string>, content: string)

  /** The extension the filename test asks for, in lower case. */
  const CsvSuffix: string := ".csv"

  /** Reference definition: the last four characters spell ".csv" in any
      mixture of upper and lower case. */
  predicate CsvSuffixIgnoringCase(name: string)
  {
    && |name| >= 4
    && name[|name| - 4] == '.'
    && name[|name| - 3] in {'c', 'C'}
    && name[|name| - 2] in {'s', 'S'}
    && name[|name| - 1] in {'v', 'V'}
  }

  /** Lower-casing then testing for ".csv" is the case-blind suffix test. */
  lemma LowerSuffix(name: string)
    ensures EndsWith(Lower(name), CsvSuffix) <==> CsvSuffixIgnoringCase(name)
  {
    var l := Lower(name);
    if |name| >= 4 {
      var n := |name|;
      assert l[n - 4..] == [l[n - 4], l[n - 3], l[n - 2], l[n - 1]];
      assert CsvSuffix == ['.', 'c', 's', 'v'];
    }
  }

  /** `_is_valid_csv_file`: a filename is present, is not whitespace only,
      and its lower-cased form ends in ".csv". The Python code asks whether
      `strip()` leaves anything; `StripTests` shows the two tests agree. */
  predicate IsValidCsvFile(name: Option<string>)
  {
    match name
    case None => false
    case Some(s) => !IsBlank(s) && EndsWith(Lower(s), CsvSuffix)
  }

  /** The filename test in plain terms: a name is accepted exactly when it
      is present, has a non-whitespace character, and ends in ".csv" in any
      case. */
  lemma ValidCsvFileExactly(name: Option<string>)
    ensures IsValidCsvFile(name) <==> name.Some? && !IsBlank(name.value) && CsvSuffixIgnoringCase(name.value)
  {
    if name.Some? {
      LowerSuffix(name.value);
    }
  }

  /** Reference definition of the batch test: at least one file, and every
      file's name passes. */
  predicate AllValid(files: seq<Upload>)
  {
    |files| > 0 && forall i :: 0 <= i < |files| ==> IsValidCsvFile(files[i].filename)
  }

  /** `_validate_csv_files`: false for an empty batch, otherwise false at the
      first file whose name fails, and true when none does. */
  method ValidateCsvFiles(files: seq<Upload>) returns (ok: bool)
    ensures ok <==> AllValid(files)
  {
    if |files| == 0 {
      return false;
    }
    var i := 0;
    while i < |files|
      invariant 0 <= i <= |files|
      invariant forall j :: 0 <= j < i ==> IsValidCsvFile(files[j].filename)
    {
      if !IsValidCsvFile(files[i].filename) {
        return false;
      }
      i := i + 1;
    }
    return true;
  }

  /** Upper and lower case in a filename never change the verdict. */
  lemma CaseDoesNotMatter(name: string)
    ensures IsValidCsvFile(Some(Lower(name))) == IsValidCsvFile(Some(name))
  {
    var l := Lower(name);
    ValidCsvFileExactly(Some(l));
    ValidCsvFileExactly(Some(name));
    assert IsBlank(l) <==> IsBlank(name) by {
      forall i | 0 <= i < |name| ensures IsSpace(l[i]) <==> IsSpace(name[i]) {
        assert l[i] == LowerChar(name[i]);
      }
    }
    assert CsvSuffixIgnoringCase(l) <==> CsvSuffixIgnoringCase(name);
  }

  /** A name that starts with a visible character and ends in ".csv" in any
      case is accepted. */
  lemma VisibleCsvNameAccepted(name: string)
    requires name != [] && !IsSpace(name[0]) && CsvSuffixIgnoringCase(name)
    ensures IsValidCsvFile(Some(name))
  {
    ValidCsvFileExactly(Some(name));
  }

  /** "carrier.CSV" and "crm.Csv" are accepted, and so is a bare ".csv",
      since only blank names are refused. */
  lemma AcceptedNames()
    ensures IsValidCsvFile(Some("carrier.CSV"))
    ensures IsValidCsvFile(Some("crm.Csv"))
    ensures IsValidCsvFile(Some(".csv"))
  {
    VisibleCsvNameAccepted("carrier.CSV");
    VisibleCsvNameAccepted("crm.Csv");
    VisibleCsvNameAccepted(".csv");
  }

  /** "crm.txt", an absent name and a whitespace-only name are refused. */
  lemma RefusedNames()
    ensures !IsValidCsvFile(Some("crm.txt"))
    ensures !IsValidCsvFile(None)
    ensures !IsValidCsvFile(Some("   "))
  {
    ValidCsvFileExactly(Some("crm.txt"));
    ValidCsvFileExactly(Some("   "));
    assert "crm.txt"[6] == 't';
    assert IsBlank("   ");
  }

  /** One bad file rejects the whole batch, whatever the others are. */
  lemma OneBadFileRejectsBatch(files: seq<Upload>, k: nat)
    requires k < |files| && !IsValidCsvFile(files[k].filename)
    ensures !AllValid(files)
  {
  }

  /** The blank-content test of `_parse_csv_content`: content that is empty
      or whitespace only fails with "<name> is empty"; any other content goes
      on to the CSV parser. As for filenames, the Python code's `strip()` test is
      the blankness test (`StripTests`). */
  function CheckContent(content: string, name: string): (r: Outcome<string>)
    ensures r.Pass? <==> exists i :: 0 <= i < |content| && !IsSpace(content[i])
    ensures r.Fail? ==> r.error == name + " is empty"
  {
    if IsBlank(content) then Fail(name + " is empty") else Pass
  }

  /** A content guard failure names the file it was given. */
  lemma EmptyMessageNamesFile(name: string)
    ensures CheckContent("", name) == Fail(name + " is empty")
    ensures CheckContent(" \n\t", name).Fail?
    ensures CheckContent("policy_id\n", name) == Pass
  {
    assert !IsSpace("policy_id\n"[0]);
  }

  /** Both guards, written as `utils.py` writes them with `strip()`, agree
      with the model: a filename passes when it is present, `strip()` leaves
      something and the lower-cased name ends in ".csv"; content fails when
      `strip()` leaves nothing. */
  lemma StripTests(name: Option<string>, content: string, file: string)
    ensures IsValidCsvFile(name) <==>
              name.Some? && Strip(name.value) != [] && EndsWith(Lower(name.value), CsvSuffix)
    ensures CheckContent(content, file).Fail? <==> Strip(content) == []
  {
  }
}
