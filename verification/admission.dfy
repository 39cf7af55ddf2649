/** The file admission policy of src/App.tsx: which attachments are accepted
    (`hasAllowedExtension`, `isAllowedFile`) and the pre-submission walk over every
    file input that enforces the per-file and aggregate size ceilings
    (`validateZap2Files`). */
module Admission {
  import opened Options
  import opened Text

  /** A selected file as the browser describes it: name, declared MIME type, byte size. */
  datatype FileEntry = FileEntry(name: string, mime: string, size: nat)

  /** The files currently selected in one file input (an absent `files` list is empty). */
  type FileInput = seq<FileEntry>

  const AllowedExtensions: seq<string> :=
    [".pdf", ".doc", ".docx", ".xls", ".xlsx", ".csv", ".txt", ".rtf",
     ".zip",
     ".tif", ".tiff", ".jpg", ".jpeg", ".png", ".heic"]

  const AllowedMimeExact: seq<string> := [
    "application/pdf",
    "application/msword",
    "application/vnd.openxmlformats-officedocument.wordprocessingml.document",
    "application/vnd.ms-excel",
    "application/vnd.openxmlformats-officedocument.spreadsheetml.sheet",
    "text/csv",
    "text/plain",
    "application/rtf",
    "application/zip",
    "image/tiff", "image/jpeg", "image/png", "image/heic"
  ]

  const OctetStream: string := "application/octet-stream"

  /** 9.5 MiB: `9.5 * 1024 * 1024` is exact in floating point. */
  const MaxBytesPerFile: nat := 9_961_472
  /** 30 MiB. */
  const MaxBytesTotal: nat := 31_457_280

  /** `list.includes(s)`, walked element by element. */
  predicate Member(s: string, list: seq<string>)
  {
    |list| > 0 && (s == list[0] || Member(s, list[1..]))
  }

  lemma {:induction false} MemberIn(s: string, list: seq<string>)
    ensures Member(s, list) <==> s in list
  {
    if |list| > 0 {
      MemberIn(s, list[1..]);
      assert list == [list[0]] + list[1..];
    }
  }

  /** `hasAllowedExtension`: the lower-cased name ends with one of the extensions. */
  predicate HasAllowedExtension(name: string)
  {
    SomeSuffix(AsciiLower(name), AllowedExtensions)
  }

  /** `exts.some(ext => s.endsWith(ext))`. */
  predicate SomeSuffix(s: string, exts: seq<string>)
  {
    |exts| > 0 && (EndsWith(s, exts[0]) || SomeSuffix(s, exts[1..]))
  }

  lemma {:induction false} SomeSuffixExists(s: string, exts: seq<string>)
    ensures SomeSuffix(s, exts) <==> exists i :: 0 <= i < |exts| && EndsWith(s, exts[i])
  {
    if |exts| > 0 {
      SomeSuffixExists(s, exts[1..]);
      if exists i :: 0 <= i < |exts| && EndsWith(s, exts[i]) {
        var i :| 0 <= i < |exts| && EndsWith(s, exts[i]);
        if i > 0 {
          assert EndsWith(s, exts[1..][i - 1]);
        }
      }
    }
  }

  /** The `/^image\//i` test: the type starts with `image/`, in any letter case. */
  predicate IsImageType(mime: string)
  {
    |mime| >= 6 && AsciiLower(mime[..6]) == "image/"
  }

  /** `isAllowedFile`, branch for branch. */
  predicate IsAllowedFile(f: FileEntry)
  {
    if Member(f.mime, AllowedMimeExact) then true
    else if IsImageType(f.mime) then true
    else if f.mime == OctetStream && HasAllowedExtension(f.name) then true
    else HasAllowedExtension(f.name)
  }

  /** A file is admitted exactly when its type is on the exact list, or is an image
      type, or its name carries an allowed extension; the octet-stream branch adds
      nothing the last-resort extension test does not already admit. */
  lemma AdmissionRule(f: FileEntry)
    ensures IsAllowedFile(f) <==>
              f.mime in AllowedMimeExact || IsImageType(f.mime) || HasAllowedExtension(f.name)
  {
    MemberIn(f.mime, AllowedMimeExact);
  }

  lemma LowerSuffix(name: string, k: nat)
    requires k <= |name|
    ensures AsciiLower(name)[k..] == AsciiLower(name[k..])
  {
  }

  lemma {:induction false} SomeSuffixLower(name: string, exts: seq<string>)
    ensures SomeSuffix(AsciiLower(name), exts) <==>
              exists k :: 0 <= k <= |name| && AsciiLower(name[k..]) in exts
  {
    var lower := AsciiLower(name);
    SomeSuffixExists(lower, exts);
    if SomeSuffix(lower, exts) {
      var i :| 0 <= i < |exts| && EndsWith(lower, exts[i]);
      var k := |name| - |exts[i]|;
      LowerSuffix(name, k);
      assert AsciiLower(name[k..]) == exts[i];
    }
    if exists k :: 0 <= k <= |name| && AsciiLower(name[k..]) in exts {
      var k :| 0 <= k <= |name| && AsciiLower(name[k..]) in exts;
      var i :| 0 <= i < |exts| && exts[i] == AsciiLower(name[k..]);
      LowerSuffix(name, k);
      assert EndsWith(lower, exts[i]);
    }
  }

  /** The extension test is case-insensitive: a name is accepted exactly when some
      suffix of it, lower-cased, is one of the allowed extensions. */
  lemma ExtensionRule(name: string)
    ensures HasAllowedExtension(name) <==>
              exists k :: 0 <= k <= |name| && AsciiLower(name[k..]) in AllowedExtensions
  {
    SomeSuffixLower(name, AllowedExtensions);
  }

  // ---- validateZap2Files ----

  /** The three rejection reasons, in the order they are checked for each file. */
  datatype Violation = UnsupportedType(name: string) | FileTooLarge(name: string) | TotalTooLarge

  datatype Verdict = Accepted | Rejected(violation: Violation)

  /** The user-facing message for each violation; the type and size messages name
      the file. */
  function Message(v: Violation): string
  {
    match v
    case UnsupportedType(n) => UnsupportedPrefix + n + UnsupportedSuffix
    case FileTooLarge(n) => TooLargePrefix + n + TooLargeSuffix
    case TotalTooLarge => TotalMessage
  }

  const UnsupportedPrefix: string := "Unsupported file type: "
  const UnsupportedSuffix: string := ". Allowed: " + Join(AllowedExtensions, ", ") + " and common images."
  const TooLargePrefix: string := "File too large: "
  const TooLargeSuffix: string := ". Please keep each file " + AtMost + " 9.5 MB."
  const TotalMessage: string := TotalPrefix + AtMost + " 30 MB."
  const TotalPrefix: string := "Total upload size too large. " + "Please keep all files combined "
  /** The character U+2264 LESS-THAN OR EQUAL TO. */
  const AtMost: string := "\U{2264}"

  /** Distinct violations read differently: the message tells the rule broken and,
      for the per-file rules, exactly which file. */
  lemma MessageInjective(v: Violation, w: Violation)
    requires Message(v) == Message(w)
    ensures v == w
  {
    var m := Message(v);
    assert UnsupportedPrefix[0] == 'U' && TooLargePrefix[0] == 'F' && TotalPrefix[0] == 'T';
    assert TotalMessage[0] == TotalPrefix[0];
    assert m[0] == Message(w)[0];
    match v
    case UnsupportedType(n) =>
      var n' := w.name;
      assert |n| == |n'|;
      assert n == m[|UnsupportedPrefix|..|UnsupportedPrefix| + |n|];
      assert n' == m[|UnsupportedPrefix|..|UnsupportedPrefix| + |n'|];
    case FileTooLarge(n) =>
      var n' := w.name;
      assert |n| == |n'|;
      assert n == m[|TooLargePrefix|..|TooLargePrefix| + |n|];
      assert n' == m[|TooLargePrefix|..|TooLargePrefix| + |n'|];
    case TotalTooLarge =>
  }

  /** All files of all inputs, in input order (inputs with no files add nothing). */
  function Flatten(inputs: seq<FileInput>): seq<FileEntry>
  {
    if |inputs| == 0 then [] else inputs[0] + Flatten(inputs[1..])
  }

  function SizeSum(files: seq<FileEntry>): nat
  {
    if |files| == 0 then 0 else files[0].size + SizeSum(files[1..])
  }

  /** The checks made at one file, given the running total before it: its type
      first, then its own size, then the running total including it. The first
      check that fails decides the violation. */
  function CheckFile(f: FileEntry, totalBefore: nat): (r: Option<Violation>)
    ensures r.None? <==>
              IsAllowedFile(f) && f.size <= MaxBytesPerFile && totalBefore + f.size <= MaxBytesTotal
    ensures r == Some(UnsupportedType(f.name)) <==> !IsAllowedFile(f)
    ensures r == Some(FileTooLarge(f.name)) <==> IsAllowedFile(f) && f.size > MaxBytesPerFile
    ensures r == Some(TotalTooLarge) <==>
              IsAllowedFile(f) && f.size <= MaxBytesPerFile && totalBefore + f.size > MaxBytesTotal
  {
    if !IsAllowedFile(f) then Some(UnsupportedType(f.name))
    else if f.size > MaxBytesPerFile then Some(FileTooLarge(f.name))
    else if totalBefore + f.size > MaxBytesTotal then Some(TotalTooLarge)
    else None
  }

  /** A per-file check given the running total before the file. */
  type Check = (FileEntry, nat) -> Option<Violation>

  /** The walk over `files` with running total `total`: each file in turn is checked,
      the first failing check ends the walk, and otherwise its size is added. */
  function Walk(check: Check, files: seq<FileEntry>, total: nat): Verdict
  {
    if |files| == 0 then Accepted
    else
      match check(files[0], total)
      case Some(v) => Rejected(v)
      case None => Walk(check, files[1..], total + files[0].size)
  }

  /** `validateZap2Files`: a missing form is accepted; otherwise every file of every
      input is walked, in input order, with one running total. */
  function ValidateZap2Files(form: Option<seq<FileInput>>): Verdict
  {
    match form
    case None => Accepted
    case Some(inputs) => Walk(CheckFile, Flatten(inputs), 0)
  }

  /** The running total when a walk started at `t` reaches file `k`. */
  function Before(files: seq<FileEntry>, t: nat, k: nat): nat
    requires k <= |files|
  {
    t + SizeSum(files[..k])
  }

  lemma SizeSumAppend(a: seq<FileEntry>, b: seq<FileEntry>)
    ensures SizeSum(a + b) == SizeSum(a) + SizeSum(b)
  {
    if |a| == 0 {
      assert a + b == b;
    } else {
      assert (a + b)[1..] == a[1..] + b;
      SizeSumAppend(a[1..], b);
    }
  }

  lemma BeforeStep(files: seq<FileEntry>, t: nat, k: nat)
    requires 0 < k <= |files|
    ensures Before(files, t, k) == Before(files[1..], t + files[0].size, k - 1)
  {
    assert files[..k] == [files[0]] + files[1..][..k - 1];
  }

  /** Every file passes `check` against `t` plus the sizes of the files before it. */
  predicate AllPass(check: Check, files: seq<FileEntry>, t: nat)
  {
    forall k :: 0 <= k < |files| ==> check(files[k], Before(files, t, k)).None?
  }

  /** The walk with running total `t` accepts exactly when every file passes the
      check against `t` plus the sizes of the files before it. */
  lemma {:induction false} WalkAccepts(check: Check, files: seq<FileEntry>, t: nat)
    ensures Walk(check, files, t) == Accepted <==> AllPass(check, files, t)
  {
    if |files| > 0 {
      WalkAccepts(check, files[1..], t + files[0].size);
      assert Before(files, t, 0) == t;
      forall k | 0 < k < |files|
        ensures check(files[k], Before(files, t, k))
                == check(files[1..][k - 1], Before(files[1..], t + files[0].size, k - 1))
      {
        BeforeStep(files, t, k);
      }
      if Walk(check, files, t) == Accepted {
        forall k | 0 <= k < |files|
          ensures check(files[k], Before(files, t, k)).None?
        {
          if k > 0 {
            assert check(files[1..][k - 1], Before(files[1..], t + files[0].size, k - 1)).None?;
          }
        }
      }
      if AllPass(check, files, t) {
        forall k | 0 <= k < |files| - 1
          ensures check(files[1..][k], Before(files[1..], t + files[0].size, k)).None?
        {
          assert check(files[k + 1], Before(files, t, k + 1)).None?;
        }
      }
    }
  }

  /** The walk with running total `t` reports the violation of the first file whose
      check fails. */
  lemma {:induction false} WalkRejects(check: Check, files: seq<FileEntry>, t: nat, k: nat)
    requires k < |files|
    requires check(files[k], Before(files, t, k)).Some?
    requires forall j :: 0 <= j < k ==> check(files[j], Before(files, t, j)).None?
    ensures Walk(check, files, t) == Rejected(check(files[k], Before(files, t, k)).value)
  {
    assert Before(files, t, 0) == t;
    if k > 0 {
      BeforeStep(files, t, k);
      forall j | 0 <= j < k - 1
        ensures check(files[1..][j], Before(files[1..], t + files[0].size, j)).None?
      {
        BeforeStep(files, t, j + 1);
        assert check(files[j + 1], Before(files, t, j + 1)).None?;
      }
      WalkRejects(check, files[1..], t + files[0].size, k - 1);
    }
  }

  /** Validation passes exactly when no file breaks any of the three rules at the
      point the walk reaches it. */
  lemma AcceptedIffNoViolation(inputs: seq<FileInput>)
    ensures ValidateZap2Files(Some(inputs)) == Accepted <==> AllPass(CheckFile, Flatten(inputs), 0)
  {
    WalkAccepts(CheckFile, Flatten(inputs), 0);
  }

  /** First violation wins: the reported violation is that of the first file, in
      input order, that fails a check; for that file the type is checked before its
      size, and its size before the running total (see `CheckFile`). */
  lemma FirstViolationWins(inputs: seq<FileInput>, k: nat)
    requires k < |Flatten(inputs)|
    requires CheckFile(Flatten(inputs)[k], Before(Flatten(inputs), 0, k)).Some?
    requires forall j :: 0 <= j < k ==> CheckFile(Flatten(inputs)[j], Before(Flatten(inputs), 0, j)).None?
    ensures ValidateZap2Files(Some(inputs))
            == Rejected(CheckFile(Flatten(inputs)[k], Before(Flatten(inputs), 0, k)).value)
  {
    WalkRejects(CheckFile, Flatten(inputs), 0, k);
  }

  predicate AllAdmitted(files: seq<FileEntry>)
  {
    forall i :: 0 <= i < |files| ==> IsAllowedFile(files[i]) && files[i].size <= MaxBytesPerFile
  }

  /** The acceptance rule in closed form: every file admitted, none above 9.5 MiB,
      and all of them together at most 30 MiB. */
  lemma {:induction false} AcceptedIff(files: seq<FileEntry>, t: nat)
    ensures Walk(CheckFile, files, t) == Accepted <==>
              AllAdmitted(files) && (|files| == 0 || t + SizeSum(files) <= MaxBytesTotal)
  {
    if |files| > 0 {
      AcceptedIff(files[1..], t + files[0].size);
      if |files| == 1 {
        assert SizeSum(files) == files[0].size;
      }
      if AllAdmitted(files) {
        assert AllAdmitted(files[1..]);
      }
    }
  }

  // ---- Worked examples ----

  const MiB: nat := 1_048_576

  lemma PdfAdmitted(name: string, size: nat)
    ensures IsAllowedFile(FileEntry(name, "application/pdf", size))
  {
    assert AllowedMimeExact[0] == "application/pdf";
  }

  /** A name ending in a character no allowed extension ends with has no allowed
      extension. */
  lemma {:induction false} SomeSuffixLastChar(s: string, exts: seq<string>)
    requires |s| > 0
    requires forall i :: 0 <= i < |exts| ==> |exts[i]| > 0 && exts[i][|exts[i]| - 1] != s[|s| - 1]
    ensures !SomeSuffix(s, exts)
  {
    if |exts| > 0 {
      if |exts[0]| <= |s| {
        assert s[|s| - |exts[0]|..][|exts[0]| - 1] == s[|s| - 1];
      }
      SomeSuffixLastChar(s, exts[1..]);
    }
  }

  /** A scanner's upload: no useful type, an upper-case extension. */
  lemma ExampleScanner(f: FileEntry)
    requires f.name == "SCAN.TIF" && f.mime == OctetStream
    ensures IsAllowedFile(f)
  {
    var lower := AsciiLower(f.name);
    assert lower[4..] == ".tif";
    assert AllowedExtensions[9] == ".tif";
    SomeSuffixExists(lower, AllowedExtensions);
    assert EndsWith(lower, AllowedExtensions[9]);
  }

  /** An executable is refused, and the refusal names it. */
  lemma ExampleMalware(f: FileEntry, total: nat)
    requires f.name == "malware.exe" && f.mime == "application/x-msdownload"
    ensures !IsAllowedFile(f)
    ensures CheckFile(f, total) == Some(UnsupportedType("malware.exe"))
  {
    AdmissionRule(f);
    assert !IsImageType(f.mime);
    MimeNotListed();
    var lower := AsciiLower(f.name);
    assert lower[|lower| - 1] == 'e';
    NoExtensionEndsInE();
    SomeSuffixLastChar(lower, AllowedExtensions);
  }

  lemma MimeNotListed()
    ensures "application/x-msdownload" !in AllowedMimeExact
  {
    forall i | 0 <= i < |AllowedMimeExact|
      ensures AllowedMimeExact[i] != "application/x-msdownload"
    {
      if |AllowedMimeExact[i]| == 24 {
        assert AllowedMimeExact[i] == "application/vnd.ms-excel";
        assert AllowedMimeExact[i][12] != "application/x-msdownload"[12];
      }
    }
  }

  lemma NoExtensionEndsInE()
    ensures forall i :: 0 <= i < |AllowedExtensions| ==>
              |AllowedExtensions[i]| > 0 && AllowedExtensions[i][|AllowedExtensions[i]| - 1] != 'e'
  {
  }

  /** A 10 MiB file is refused by name and a 9 MiB one passes; a file of exactly
      9.5 MiB passes too, the ceiling being inclusive. */
  lemma ExampleSizes(size: nat)
    requires size == 10 * MiB || size == 9 * MiB || size == MaxBytesPerFile
    ensures ValidateZap2Files(Some([[FileEntry("a.pdf", "application/pdf", size)]]))
            == if size == 10 * MiB then Rejected(FileTooLarge("a.pdf")) else Accepted
  {
    var f := FileEntry("a.pdf", "application/pdf", size);
    PdfAdmitted(f.name, size);
    assert Flatten([[f]]) == [f] by {
      assert Flatten([[f]]) == [f] + Flatten([]);
    }
    assert Walk(CheckFile, [f], 0) == Walk(CheckFile, [], size) || CheckFile(f, 0).Some?;
  }

  /** Three 11 MiB files stop at the first, for its own size, before any running total
      is reached; four 9 MiB files spread over two inputs pass three checks and stop at
      the fourth on the 30 MiB aggregate. */
  lemma ExampleAggregate()
    ensures var f := FileEntry("big.pdf", "application/pdf", 11 * MiB);
            ValidateZap2Files(Some([[f, f, f]])) == Rejected(FileTooLarge("big.pdf"))
    ensures var f := FileEntry("part.pdf", "application/pdf", 9 * MiB);
            ValidateZap2Files(Some([[f, f], [], [f, f]])) == Rejected(TotalTooLarge)
  {
    var big := FileEntry("big.pdf", "application/pdf", 11 * MiB);
    PdfAdmitted(big.name, big.size);
    assert Flatten([[big, big, big]]) == [big, big, big] + Flatten([]);
    var f := FileEntry("part.pdf", "application/pdf", 9 * MiB);
    PdfAdmitted(f.name, f.size);
    var inputs := [[f, f], [], [f, f]];
    assert Flatten(inputs[2..]) == [f, f] + Flatten([]) by { assert inputs[2..][1..] == []; }
    assert Flatten(inputs[1..]) == [] + Flatten(inputs[2..]) by { assert inputs[1..][1..] == inputs[2..]; }
    assert Flatten(inputs) == [f, f, f, f];
    assert [f, f, f, f][1..] == [f, f, f] && [f, f, f][1..] == [f, f] && [f, f][1..] == [f];
    assert Walk(CheckFile, [f], 27 * MiB) == Rejected(TotalTooLarge);
    assert Walk(CheckFile, [f, f], 18 * MiB) == Walk(CheckFile, [f], 27 * MiB);
    assert Walk(CheckFile, [f, f, f], 9 * MiB) == Walk(CheckFile, [f, f], 18 * MiB);
    assert Walk(CheckFile, [f, f, f, f], 0) == Walk(CheckFile, [f, f, f], 9 * MiB);
  }

  lemma FlattenCons(inputs: seq<FileInput>, i: nat)
    requires i < |inputs|
    ensures Flatten(inputs[i..]) == inputs[i] + Flatten(inputs[i + 1..])
  {
    assert inputs[i..][1..] == inputs[i + 1..];
  }

  lemma FlattenPrefix(inputs: seq<FileInput>, i: nat)
    requires i < |inputs|
    ensures Flatten(inputs[..i + 1]) == Flatten(inputs[..i]) + inputs[i]
  {
    if i == 0 {
      assert inputs[..1][1..] == [];
    } else {
      assert inputs[..i + 1][1..] == inputs[1..][..i];
      assert inputs[..i][1..] == inputs[1..][..i - 1];
      FlattenPrefix(inputs[1..], i - 1);
    }
  }

  /** `validateZap2Files` as the source writes it: a loop over the inputs, an inner
      loop over each input's files (`CheckInputLoop`), one running total, and an
      early return at the first violation. */
  method ValidateZap2FilesLoop(form: Option<seq<FileInput>>) returns (verdict: Verdict)
    ensures verdict == ValidateZap2Files(form)
  {
    if form.None? {
      return Accepted;
    }
    var inputs := form.value;
    var total: nat := 0;
    var i := 0;
    while i < |inputs|
      invariant 0 <= i <= |inputs|
      invariant Walk(CheckFile, Flatten(inputs), 0) == Walk(CheckFile, Flatten(inputs[i..]), total)
    {
      FlattenCons(inputs, i);
      var failed, total' := CheckInputLoop(inputs[i], Flatten(inputs[i + 1..]), total);
      if failed.Some? {
        return Rejected(failed.value);
      }
      total := total';
      i := i + 1;
    }
    verdict := Accepted;
  }

  /** The walk's first step, for the checks of `validateZap2Files`. */
  lemma WalkFirst(f: FileEntry, rest: seq<FileEntry>, t: nat)
    ensures Walk(CheckFile, [f] + rest, t)
            == match CheckFile(f, t)
               case Some(v) => Rejected(v)
               case None => Walk(CheckFile, rest, t + f.size)
  {
    assert ([f] + rest)[0] == f && ([f] + rest)[1..] == rest;
  }

  /** The inner loop over the files of one input: the first violation among them,
      or the running total after all of them. */
  method CheckInputLoop(files: FileInput, rest: seq<FileEntry>, total: nat)
    returns (failed: Option<Violation>, total': nat)
    ensures Walk(CheckFile, files + rest, total)
            == if failed.Some? then Rejected(failed.value) else Walk(CheckFile, rest, total')
  {
    total' := total;
    assert files[0..] == files;
    var j := 0;
    while j < |files|
      invariant 0 <= j <= |files|
      invariant Walk(CheckFile, files + rest, total) == Walk(CheckFile, files[j..] + rest, total')
    {
      var f := files[j];
      assert files[j..] + rest == [f] + (files[j + 1..] + rest);
      WalkFirst(f, files[j + 1..] + rest, total');
      var before := total';
      if !IsAllowedFile(f) {
        assert CheckFile(f, before) == Some(UnsupportedType(f.name));
        return Some(UnsupportedType(f.name)), total';
      }
      if f.size > MaxBytesPerFile {
        assert CheckFile(f, before) == Some(FileTooLarge(f.name));
        return Some(FileTooLarge(f.name)), total';
      }
      total' := total' + f.size;
      if total' > MaxBytesTotal {
        assert CheckFile(f, before) == Some(TotalTooLarge);
        return Some(TotalTooLarge), total';
      }
      assert CheckFile(f, before) == None;
      j := j + 1;
    }
    assert files[j..] + rest == rest;
    failed := None;
  }
}
