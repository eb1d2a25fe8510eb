/** The two string helpers of the conversion dialogs: the label shown for
    the selected photos (`handlePhotoFileSelected`), and the output file name
    `name.replace(/\.[^/.]+$/, ".pdf")` used by `handleDownloadPdf` and the
    result modal. */
module Hero {
  import opened JsValues

  const NameSeparator: string := ", "
  const MoreSuffix: string := " and more..."
  const PdfExtension: string := ".pdf"

  /** `parts.join(sep)`. */
  function Join(parts: seq<string>, sep: string): string
    decreases |parts|
  {
    if |parts| == 0 then ""
    else if |parts| == 1 then parts[0]
    else parts[0] + sep + Join(parts[1..], sep)
  }

  /** `files.map((file, i) => (i < 2 ? file.name : undefined))`. */
  function FirstTwoOrUndefined(names: seq<string>): (r: seq<Option<string>>)
    ensures |r| == |names|
  {
    seq(|names|, i requires 0 <= i < |names| => if i < 2 then Some(names[i]) else None)
  }

  /** `.filter((value) => value !== undefined)`. */
  function KeepDefined(values: seq<Option<string>>): seq<string>
    decreases |values|
  {
    if values == [] then []
    else (if values[0].Some? then [values[0].value] else []) + KeepDefined(values[1..])
  }

  /** The label `handlePhotoFileSelected` stores; `None` when no file was
      selected and the handler changes nothing. */
  function PhotoSelectionLabel(names: seq<string>): (shown: Option<string>)
    ensures shown.None? <==> names == []
  {
    if |names| == 0 then None
    else if |names| < 3 then Some(Join(names, NameSeparator))
    else Some(Join(KeepDefined(FirstTwoOrUndefined(names)), NameSeparator) + MoreSuffix)
  }

  /** Filtering a list whose first `k` entries are defined and the rest
      undefined yields the first `k` values, in order. */
  lemma {:induction false} KeepDefinedOfPrefix(values: seq<Option<string>>, k: nat)
    requires k <= |values|
    requires forall i :: 0 <= i < k ==> values[i].Some?
    requires forall i :: k <= i < |values| ==> values[i].None?
    ensures KeepDefined(values) == seq(k, i requires 0 <= i < k => values[i].value)
    decreases |values|
  {
    if values != [] {
      var tail := values[1..];
      if k == 0 {
        KeepDefinedOfPrefix(tail, 0);
      } else {
        KeepDefinedOfPrefix(tail, k - 1);
        assert seq(k, i requires 0 <= i < k => values[i].value)
          == [values[0].value] + seq(k - 1, i requires 0 <= i < k - 1 => tail[i].value);
      }
    }
  }

  /** With one or two files the label lists every name in order. */
  lemma LabelOfFewFiles(names: seq<string>)
    requires 1 <= |names| <= 2
    ensures |names| == 1 ==> PhotoSelectionLabel(names) == Some(names[0])
    ensures |names| == 2 ==> PhotoSelectionLabel(names) == Some(names[0] + ", " + names[1])
  {
    if |names| == 2 {
      assert Join(names[1..], NameSeparator) == names[1];
    }
  }

  /** With three or more files the label is the first two names and
      " and more...". */
  lemma LabelOfManyFiles(names: seq<string>)
    requires |names| >= 3
    ensures PhotoSelectionLabel(names) == Some(names[0] + ", " + names[1] + " and more...")
  {
    var marked := FirstTwoOrUndefined(names);
    KeepDefinedOfPrefix(marked, 2);
    var kept := seq(2, i requires 0 <= i < 2 => marked[i].value);
    assert kept == [names[0], names[1]];
    assert Join(kept, NameSeparator) == names[0] + ", " + Join(kept[1..], NameSeparator);
    assert kept[1..] == [names[1]];
  }

  /** Names after the second never influence the label. */
  lemma LabelIgnoresLaterNames(names: seq<string>, others: seq<string>)
    requires |names| >= 3 && |others| >= 3
    requires names[..2] == others[..2]
    ensures PhotoSelectionLabel(names) == PhotoSelectionLabel(others)
  {
    LabelOfManyFiles(names);
    LabelOfManyFiles(others);
    assert names[0] == names[..2][0] && names[1] == names[..2][1];
    assert others[0] == others[..2][0] && others[1] == others[..2][1];
  }

  // ---------------------------------------------------------------------
  // The output file name

  /** The pattern `\.[^/.]+$` matches at `i`: a dot, then one or more
      characters up to the end, none of them `/` or `.`. */
  predicate ExtensionAt(s: string, i: int)
  {
    0 <= i < |s| - 1 && s[i] == '.' && forall j :: i < j < |s| ==> s[j] != '/' && s[j] != '.'
  }

  /** The leftmost match at or after `from`, as the regular-expression
      search tries each start position in turn. */
  function FindExtension(s: string, from: nat): (r: Option<nat>)
    ensures r.Some? ==> from <= r.value && ExtensionAt(s, r.value)
    ensures r.None? ==> forall i :: from <= i ==> !ExtensionAt(s, i)
    decreases |s| - from
  {
    if from >= |s| then None
    else if ExtensionAt(s, from) then Some(from)
    else FindExtension(s, from + 1)
  }

  /** `s.replace(/\.[^/.]+$/, ".pdf")`. */
  function ReplaceExtension(s: string): (r: string)
    ensures r == s || exists i :: ExtensionAt(s, i) && r == s[..i] + PdfExtension
    ensures (forall i :: !ExtensionAt(s, i)) ==> r == s
  {
    match FindExtension(s, 0)
    case Some(i) => s[..i] + PdfExtension
    case None => s
  }

  /** The pattern matches at most once: only at the last dot. */
  lemma ExtensionIsAtLastDot(s: string, i: int)
    requires ExtensionAt(s, i)
    ensures forall j :: ExtensionAt(s, j) ==> j == i
    ensures s[i] == '.' && forall j :: i < j < |s| ==> s[j] != '.'
  {
  }

  /** A name with an extension keeps everything before its last dot and
      ends in ".pdf". */
  lemma ReplacesExtension(s: string, i: int)
    requires ExtensionAt(s, i)
    ensures ReplaceExtension(s) == s[..i] + ".pdf"
  {
    ExtensionIsAtLastDot(s, i);
  }

  /** A name without such a suffix is unchanged: no dot, a trailing dot, or
      a `/` after the last dot. */
  lemma UnchangedWithoutExtension(s: string)
    requires forall i :: !ExtensionAt(s, i)
    ensures ReplaceExtension(s) == s
  {
  }

  lemma NoExtensionCases(s: string)
    ensures (forall i :: 0 <= i < |s| ==> s[i] != '.') ==> forall i :: !ExtensionAt(s, i)
    ensures (|s| > 0 && s[|s| - 1] == '.') ==> forall i :: !ExtensionAt(s, i)
    ensures (exists d, k :: 0 <= d < k < |s| && s[d] == '.' && s[k] == '/'
               && forall j :: d < j < |s| ==> s[j] != '.') ==> forall i :: !ExtensionAt(s, i)
  {
  }

  /** Rewriting twice is rewriting once. */
  lemma {:induction false} ReplaceExtensionIdempotent(s: string)
    ensures ReplaceExtension(ReplaceExtension(s)) == ReplaceExtension(s)
  {
    match FindExtension(s, 0)
    case None =>
    case Some(i) =>
      var r := s[..i] + PdfExtension;
      assert ExtensionAt(r, i);
      ReplacesExtension(r, i);
      assert r[..i] == s[..i];
  }

  /** `handleDownloadPdf` does nothing without a converted document; with
      one, the download is named after the selected text file with its
      extension rewritten. */
  function DownloadName(hasPdfBlob: bool, selectedTextFileName: string): (r: Option<string>)
    ensures r.Some? <==> hasPdfBlob
  {
    if !hasPdfBlob then None else Some(ReplaceExtension(selectedTextFileName))
  }

  lemma DownloadNameEndsInPdf(selectedTextFileName: string, i: int)
    requires ExtensionAt(selectedTextFileName, i)
    ensures var r := DownloadName(true, selectedTextFileName).value;
      |r| == i + 4 && r[i..] == ".pdf" && r[..i] == selectedTextFileName[..i]
  {
    ReplacesExtension(selectedTextFileName, i);
  }
}
