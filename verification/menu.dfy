/** The decision logic of the menu controller in `main.py`: which raw files a
    directory offers, how far each data pipeline has got, which listed file
    the user's typed answer selects, and which manual-edit options the menu
    offers. The file system is a parameter: which paths exist, and what
    `os.listdir` returns for a directory (`None` when it does not exist).
    The user's typed answers are a sequence, read in order. */
module Menu {
  import opened Basics
  import opened Strings

  datatype FileSystem = FileSystem(
    present: string -> bool,
    listing: string -> Option<seq<string>>)

  /** The default `extensions` of `get_files_in_dir`. */
  const DefaultExtensions: seq<string> := [".html", ".pdf", ".md"]

  // ---------------------------------------------------------------------
  // get_files_in_dir

  /** `name.lower().endswith(extensions)` with a tuple of suffixes. */
  predicate HasExtension(name: string, extensions: seq<string>)
  {
    exists e :: e in extensions && EndsWith(Lower(name), e)
  }

  /** The listed names that carry one of the extensions, in listing order. */
  function KeepMatching(names: seq<string>, extensions: seq<string>): (r: seq<string>)
    ensures |r| <= |names|
    ensures forall x :: x in r <==> x in names && HasExtension(x, extensions)
  {
    if |names| == 0 then []
    else
      var last := names[|names| - 1];
      KeepMatching(names[..|names| - 1], extensions) + (if HasExtension(last, extensions) then [last] else [])
  }

  /** Filtering a listing made of two parts filters each part in turn: the
      kept names stay in listing order. */
  lemma {:induction false} KeepMatchingAppend(a: seq<string>, b: seq<string>, extensions: seq<string>)
    ensures KeepMatching(a + b, extensions) == KeepMatching(a, extensions) + KeepMatching(b, extensions)
  {
    if |b| > 0 {
      var n := |b| - 1;
      assert (a + b)[..|a + b| - 1] == a + b[..n];
      assert (a + b)[|a + b| - 1] == b[n];
      KeepMatchingAppend(a, b[..n], extensions);
    } else {
      assert a + b == a;
    }
  }

  /** `get_files_in_dir`: a missing directory has no files; otherwise the
      names whose lower-cased form ends with one of the extensions. */
  function GetFilesInDir(fs: FileSystem, directory: string, extensions: seq<string>): (r: seq<string>)
    ensures fs.listing(directory).None? ==> r == []
    ensures fs.listing(directory).Some? ==>
              forall x :: x in r <==> x in fs.listing(directory).value && HasExtension(x, extensions)
  {
    match fs.listing(directory)
    case None => []
    case Some(names) => KeepMatching(names, extensions)
  }

  // ---------------------------------------------------------------------
  // get_data_status

  datatype DataStatus = Transformed | Sanitized | Raw | Missing

  /** The directory exists and lists a file with a default extension. */
  predicate HasRawFile(fs: FileSystem, rawDir: string)
  {
    fs.listing(rawDir).Some?
    && exists x :: x in fs.listing(rawDir).value && HasExtension(x, DefaultExtensions)
  }

  /** `get_data_status`: the most advanced stage whose output exists. */
  function GetDataStatus(fs: FileSystem, rawDir: string, tempPath: string, finalPath: string): (st: DataStatus)
    ensures fs.present(finalPath) ==> st == Transformed
    ensures st == Transformed <==> fs.present(finalPath)
    ensures st == Sanitized <==> fs.present(tempPath) && !fs.present(finalPath)
    ensures st == Raw <==> !fs.present(finalPath) && !fs.present(tempPath) && HasRawFile(fs, rawDir)
    ensures st == Missing <==> !fs.present(finalPath) && !fs.present(tempPath) && !HasRawFile(fs, rawDir)
  {
    var files := GetFilesInDir(fs, rawDir, DefaultExtensions);
    assert files != [] <==> HasRawFile(fs, rawDir) by {
      if files != [] {
        assert files[0] in files;
      }
    }
    if fs.present(finalPath) then Transformed
    else if fs.present(tempPath) then Sanitized
    else if files != [] then Raw
    else Missing
  }

  function StageRank(st: DataStatus): nat
  {
    match st
    case Missing => 0
    case Raw => 1
    case Sanitized => 2
    case Transformed => 3
  }

  /** Producing more files never makes the reported status go back. */
  lemma StatusMonotone(fs: FileSystem, fs': FileSystem, rawDir: string, tempPath: string, finalPath: string)
    requires fs.present(finalPath) ==> fs'.present(finalPath)
    requires fs.present(tempPath) ==> fs'.present(tempPath)
    requires HasRawFile(fs, rawDir) ==> HasRawFile(fs', rawDir)
    ensures StageRank(GetDataStatus(fs, rawDir, tempPath, finalPath))
         <= StageRank(GetDataStatus(fs', rawDir, tempPath, finalPath))
  {
  }

  // ---------------------------------------------------------------------
  // Reading a number the way int(input(...)) does

  predicate IsDigit(c: char)
  {
    '0' <= c <= '9'
  }

  /** Decimal digits with single underscores between them, as `int()`
      accepts them. */
  predicate WellFormedDigits(s: string)
  {
    |s| > 0 && IsDigit(s[0]) && IsDigit(s[|s| - 1]) && DigitsAndUnderscores(s)
  }

  /** Every character is a digit or an underscore, and no underscore
      follows another. */
  predicate DigitsAndUnderscores(s: string)
    decreases |s|
  {
    if |s| == 0 then true
    else
      var c := s[|s| - 1];
      && (IsDigit(c) || (c == '_' && (|s| == 1 || s[|s| - 2] != '_')))
      && DigitsAndUnderscores(s[..|s| - 1])
  }

  /** The value of a digit string, underscores skipped. */
  function DigitsValue(s: string): nat
  {
    if |s| == 0 then 0
    else
      var c := s[|s| - 1];
      if IsDigit(c) then DigitsValue(s[..|s| - 1]) * 10 + (c as int - '0' as int)
      else DigitsValue(s[..|s| - 1])
  }

  /** The number of decimal digits in `s`, underscores not counted. */
  function DigitCount(s: string): (n: nat)
    ensures n <= |s|
  {
    if |s| == 0 then 0
    else DigitCount(s[..|s| - 1]) + (if IsDigit(s[|s| - 1]) then 1 else 0)
  }

  /** CPython's default limit on the number of digits `int()` converts from
      a decimal string (`sys.int_info.default_max_str_digits`). */
  const IntMaxStrDigits: nat := 4300

  /** The whitespace `int()` skips around a number: the six ASCII
      whitespace characters, and the non-ASCII characters `str.isspace`
      accepts. The ASCII separators U+001C to U+001F are not skipped,
      although `str.strip()` removes them. */
  predicate IntSpace(c: char)
  {
    IsSpace(c) && !(0x1C <= c as int <= 0x1F)
  }

  /** `int(s)` for a decimal string: surrounding whitespace and one sign are
      allowed, and at most `IntMaxStrDigits` digits; anything else is a
      `ValueError`, here `None`. */
  function ParseInt(s: string): Option<int>
  {
    ParseSigned(StripBy(s, IntSpace))
  }

  /** `int()` once the surrounding whitespace is gone: an optional sign,
      then the digits. */
  function ParseSigned(t: string): Option<int>
  {
    var signed := |t| > 0 && (t[0] == '-' || t[0] == '+');
    var body := if signed then t[1..] else t;
    if WellFormedDigits(body) && DigitCount(body) <= IntMaxStrDigits then
      Some(if signed && t[0] == '-' then -(DigitsValue(body) as int) else DigitsValue(body) as int)
    else None
  }

  /** The decimal spelling of a natural number. */
  function ShowNat(n: nat): (s: string)
    ensures |s| > 0
    ensures forall i :: 0 <= i < |s| ==> IsDigit(s[i])
  {
    var d := ['0' + (n % 10) as char];
    if n < 10 then d else ShowNat(n / 10) + d
  }

  /** The decimal spelling of an integer, with `-` when negative. */
  function ShowInt(n: int): string
  {
    if n < 0 then "-" + ShowNat(-n) else ShowNat(n)
  }

  function Pow10(m: nat): (r: nat)
    ensures r >= 1
  {
    if m == 0 then 1 else 10 * Pow10(m - 1)
  }

  lemma {:induction false} DigitsValueShowNat(n: nat)
    ensures DigitsValue(ShowNat(n)) == n
  {
    var d := ['0' + (n % 10) as char];
    if n >= 10 {
      var s := ShowNat(n / 10) + d;
      assert s[..|s| - 1] == ShowNat(n / 10);
      DigitsValueShowNat(n / 10);
    }
  }

  /** Well-formed digits without underscores: every character counts as a
      digit. */
  predicate PlainDigits(d: string)
  {
    WellFormedDigits(d) && DigitCount(d) == |d|
  }

  /** The decimal spelling of a natural number is well-formed digits, all
      of them counted. */
  lemma {:induction false} ShowNatWellFormed(n: nat)
    ensures PlainDigits(ShowNat(n))
  {
    var s := ShowNat(n);
    if n >= 10 {
      ShowNatWellFormed(n / 10);
      assert s[..|s| - 1] == ShowNat(n / 10);
    }
  }

  /** A number is spelt with at most `m` digits iff it is below 10^m. */
  lemma {:induction false} ShowNatLength(n: nat, m: nat)
    requires m >= 1
    ensures |ShowNat(n)| <= m <==> n < Pow10(m)
  {
    if n >= 10 {
      assert n == 10 * (n / 10) + n % 10;
      if m > 1 {
        ShowNatLength(n / 10, m - 1);
      }
    } else {
      assert Pow10(m) == 10 * Pow10(m - 1);
    }
  }

  /** Well-formed digits, bare or after a minus sign, carry no whitespace
      for `int()` to skip. */
  lemma NothingToSkip(d: string)
    requires WellFormedDigits(d)
    ensures StripBy(d, IntSpace) == d
    ensures StripBy("-" + d, IntSpace) == "-" + d
  {
    StripByUnchanged(d, IntSpace);
    var s := "-" + d;
    assert s[|s| - 1] == d[|d| - 1];
    StripByUnchanged(s, IntSpace);
  }

  /** After the whitespace, well-formed digits read as their value, negated
      after a minus sign, exactly when they are within the digit limit. */
  lemma SignedDigits(d: string)
    requires WellFormedDigits(d)
    ensures ParseSigned(d) == if DigitCount(d) <= IntMaxStrDigits then Some(DigitsValue(d) as int) else None
    ensures ParseSigned("-" + d) == if DigitCount(d) <= IntMaxStrDigits then Some(-(DigitsValue(d) as int)) else None
  {
    assert ("-" + d)[1..] == d;
  }

  /** Well-formed digits within the digit limit read as their value. */
  lemma ParseDigits(d: string)
    requires WellFormedDigits(d) && DigitCount(d) <= IntMaxStrDigits
    ensures ParseInt(d) == Some(DigitsValue(d) as int)
  {
    NothingToSkip(d);
    SignedDigits(d);
  }

  /** The same digits after a minus sign read as the negated value. */
  lemma ParseNegated(d: string)
    requires WellFormedDigits(d) && DigitCount(d) <= IntMaxStrDigits
    ensures ParseInt("-" + d) == Some(-(DigitsValue(d) as int))
  {
    NothingToSkip(d);
    SignedDigits(d);
  }

  /** Well-formed digits beyond the digit limit are rejected. */
  lemma TooManyDigits(d: string)
    requires WellFormedDigits(d) && DigitCount(d) > IntMaxStrDigits
    ensures ParseInt(d) == None
  {
    NothingToSkip(d);
    SignedDigits(d);
  }

  /** The same digits after a minus sign are rejected too. */
  lemma TooManyDigitsNegated(d: string)
    requires WellFormedDigits(d) && DigitCount(d) > IntMaxStrDigits
    ensures ParseInt("-" + d) == None
  {
    NothingToSkip(d);
    SignedDigits(d);
  }

  /** The decimal spelling of `n`, without its sign, has at most
      `IntMaxStrDigits` digits; by `ShowNatLength`, |n| < 10^4300. */
  predicate WithinDigitLimit(n: int)
  {
    |ShowNat(if n < 0 then -n else n)| <= IntMaxStrDigits
  }

  /** Typing the decimal spelling of a number reads back that number
      exactly when it has at most `IntMaxStrDigits` digits. */
  lemma ParseShowInt(n: int)
    ensures ParseInt(ShowInt(n)) == if WithinDigitLimit(n) then Some(n) else None
  {
    if n < 0 {
      assert ShowInt(n) == "-" + ShowNat(-n);
      ParseShowNegative(-n);
    } else {
      assert ShowInt(n) == ShowNat(n);
      ParseShowNat(n);
    }
  }

  /** Digits without underscores read as their value exactly when they are
      within the digit limit. */
  lemma ReadDigits(d: string)
    requires PlainDigits(d)
    ensures ParseInt(d) == if |d| <= IntMaxStrDigits then Some(DigitsValue(d) as int) else None
  {
    if |d| <= IntMaxStrDigits {
      ParseDigits(d);
    } else {
      TooManyDigits(d);
    }
  }

  /** The same digits after a minus sign read as the negated value exactly
      when they are within the digit limit. */
  lemma ReadNegatedDigits(d: string)
    requires PlainDigits(d)
    ensures ParseInt("-" + d) == if |d| <= IntMaxStrDigits then Some(-(DigitsValue(d) as int)) else None
  {
    if |d| <= IntMaxStrDigits {
      ParseNegated(d);
    } else {
      TooManyDigitsNegated(d);
    }
  }

  lemma ParseShowNat(n: nat)
    ensures ParseInt(ShowNat(n)) == if WithinDigitLimit(n) then Some(n as int) else None
  {
    ShowNatWellFormed(n);
    ReadDigits(ShowNat(n));
    DigitsValueShowNat(n);
  }

  lemma ParseShowNegative(n: nat)
    ensures ParseInt("-" + ShowNat(n)) == if WithinDigitLimit(-(n as int)) then Some(-(n as int)) else None
  {
    ShowNatWellFormed(n);
    ReadNegatedDigits(ShowNat(n));
    DigitsValueShowNat(n);
  }

  /** `int("\x1c2")` is a `ValueError`: U+001C is not skipped as whitespace. */
  lemma FileSeparatorRejected()
    ensures ParseInt([0x1C as char, '2']) == None
  {
    var s := [0x1C as char, '2'];
    assert !IntSpace(s[|s| - 1]);
    assert LeadingCount(s, IntSpace) == 0;
    assert StripBy(s, IntSpace) == s;
  }

  /** `int("\xa02")` is 2: a no-break space is skipped. */
  lemma NoBreakSpaceSkipped()
    ensures ParseInt([0xA0 as char, '2']) == Some(2)
  {
    var s := [0xA0 as char, '2'];
    assert LeadingCount(s, IntSpace) == 1;
    assert StripBy(s, IntSpace) == ['2'];
    assert DigitsValue(['2']) == 2;
  }

  // ---------------------------------------------------------------------
  // select_file_from_dir

  /** `os.path.join(directory, name)` on POSIX. */
  function Join(directory: string, name: string): string
  {
    if StartsWith(name, "/") then name
    else if directory == [] || EndsWith(directory, "/") then directory + name
    else directory + "/" + name
  }

  /** The typed answer names an entry of a listing of `count` files:
      `int(answer) - 1` is a valid index. */
  predicate Accepted(answer: string, count: nat)
  {
    var v := ParseInt(answer);
    v.Some? && 0 <= v.value - 1 < count
  }

  /** The listing position an accepted answer names. */
  function ChosenIndex(answer: string, count: nat): (i: nat)
    requires Accepted(answer, count)
    ensures i < count
    ensures ParseInt(answer) == Some(i as int + 1)
  {
    ParseInt(answer).value - 1
  }

  /** The position of the first accepted answer, if any: every earlier
      answer is rejected and the prompt repeats. */
  function FirstAccepted(answers: seq<string>, count: nat): (r: Option<nat>)
    ensures r.Some? ==> r.value < |answers| && Accepted(answers[r.value], count)
    ensures r.Some? ==> forall u :: 0 <= u < r.value ==> !Accepted(answers[u], count)
    ensures r.None? ==> forall u :: 0 <= u < |answers| ==> !Accepted(answers[u], count)
  {
    FirstWhere(answers, answer => Accepted(answer, count))
  }


  /** The outcome of `select_file_from_dir`: nothing to choose from, a
      chosen path (with the number of answers read), or the answers ran out
      before one was accepted (where `input()` would raise). */
  datatype Selection = NoCompatibleFiles | Chosen(path: string, answersRead: nat) | InputEnded

  /** The choice among an already computed listing `files` of `directory`:
      none, the only one without asking, or the first accepted answer. */
  function ChooseFile(directory: string, files: seq<string>, answers: seq<string>): (sel: Selection)
    ensures sel == NoCompatibleFiles <==> files == []
    ensures |files| == 1 ==> sel == Chosen(Join(directory, files[0]), 0)
    ensures sel == InputEnded <==> |files| >= 2 && FirstAccepted(answers, |files|).None?
  {
    if files == [] then NoCompatibleFiles
    else if |files| == 1 then Chosen(Join(directory, files[0]), 0)
    else
      match FirstAccepted(answers, |files|)
      case None => InputEnded
      case Some(u) => Chosen(Join(directory, files[ChosenIndex(answers[u], |files|)]), u + 1)
  }

  /** What `select_file_from_dir` promises about its result `sel` for the
      listing `files`: nothing to choose from iff the listing is empty; the
      only file without asking; otherwise the file named by the first
      accepted answer, every earlier answer having been rejected, or, when
      no answer is accepted, the input runs out. */
  predicate FaithfulChoice(directory: string, files: seq<string>, answers: seq<string>, sel: Selection)
  {
    && (sel == NoCompatibleFiles <==> files == [])
    && (|files| == 1 ==> sel == Chosen(Join(directory, files[0]), 0))
    && (sel.Chosen? && |files| != 1 ==>
          && 1 <= sel.answersRead <= |answers|
          && Accepted(answers[sel.answersRead - 1], |files|)
          && sel.path == Join(directory, files[ChosenIndex(answers[sel.answersRead - 1], |files|)])
          && forall u :: 0 <= u < sel.answersRead - 1 ==> !Accepted(answers[u], |files|))
    && (sel == InputEnded ==>
          |files| >= 2 && forall u :: 0 <= u < |answers| ==> !Accepted(answers[u], |files|))
  }

  lemma ChooseFileFaithful(directory: string, files: seq<string>, answers: seq<string>)
    ensures FaithfulChoice(directory, files, answers, ChooseFile(directory, files, answers))
  {
  }

  /** `select_file_from_dir`: list the compatible files, then choose. */
  function SelectFileFromDir(fs: FileSystem, directory: string, extensions: seq<string>,
                             answers: seq<string>): (sel: Selection)
    ensures FaithfulChoice(directory, GetFilesInDir(fs, directory, extensions), answers, sel)
  {
    var files := GetFilesInDir(fs, directory, extensions);
    ChooseFileFaithful(directory, files, answers);
    ChooseFile(directory, files, answers)
  }

  /** Typing the 1-based number of a listed file, spelt with at most
      `IntMaxStrDigits` digits, selects that file. */
  lemma TypedNumberSelectsFile(fs: FileSystem, directory: string, extensions: seq<string>, c: nat)
    requires |GetFilesInDir(fs, directory, extensions)| >= 2
    requires c < |GetFilesInDir(fs, directory, extensions)|
    requires WithinDigitLimit(c + 1)
    ensures SelectFileFromDir(fs, directory, extensions, [ShowInt(c + 1)])
         == Chosen(Join(directory, GetFilesInDir(fs, directory, extensions)[c]), 1)
  {
    ParseShowInt(c + 1);
  }

  // ---------------------------------------------------------------------
  // display_menu

  const PersonalRawDir: string := "external/personal info"
  const JobRawDir: string := "external/job description"
  const PersonalMarkdown: string := "data/temp/personal.md"
  const JobMarkdown: string := "data/temp/job.md"
  const ExpandedJobMarkdown: string := "data/temp/job_expanded.md"
  const PersonalJson: string := "data/personal_data.json"
  const JobJson: string := "data/job_data.json"
  /** The line printed when nothing can be edited. It is written as two
      literals, one per sentence, because the verifier does not look inside
      a string literal this long to find its first character. */
  const NoEditableMessage: string := "No editable files generated yet." + " Run a system action first."

  /** One `edit_options[key] = (text, path)` entry. */
  datatype EditOption = EditOption(key: string, text: string, path: string)

  const KeyPersonalMarkdown: string := "e1"
  const KeyJobMarkdown: string := "e2"
  const KeyPersonalJson: string := "e3"
  const KeyJobJson: string := "e4"

  /** An entry that is offered only when its condition holds. */
  function OfferIf(condition: bool, key: string, text: string, path: string): (r: seq<EditOption>)
    ensures |r| <= 1
    ensures forall o :: o in r ==> o.key == key && o.path == path
    ensures r != [] <==> condition
  {
    if condition then [EditOption(key, text, path)] else []
  }

  /** The `e2` entry: the expanded job description if there is one, else
      the sanitized one, else nothing. */
  function JobMarkdownOption(fs: FileSystem): (r: seq<EditOption>)
    ensures |r| <= 1
    ensures forall o :: o in r ==>
              o.key == KeyJobMarkdown
              && o.path == if fs.present(ExpandedJobMarkdown) then ExpandedJobMarkdown else JobMarkdown
    ensures r != [] <==> fs.present(ExpandedJobMarkdown) || fs.present(JobMarkdown)
  {
    if fs.present(ExpandedJobMarkdown)
    then OfferIf(true, KeyJobMarkdown, "Edit Expanded Job Data", ExpandedJobMarkdown)
    else OfferIf(fs.present(JobMarkdown), KeyJobMarkdown, "Edit Sanitized Job Data", JobMarkdown)
  }

  function PersonalMarkdownOption(fs: FileSystem): seq<EditOption>
  {
    OfferIf(fs.present(PersonalMarkdown), KeyPersonalMarkdown, "Edit Sanitized Personal Data", PersonalMarkdown)
  }

  function PersonalJsonOption(fs: FileSystem): seq<EditOption>
  {
    OfferIf(fs.present(PersonalJson), KeyPersonalJson, "Edit Transformed Personal Data", PersonalJson)
  }

  function JobJsonOption(fs: FileSystem): seq<EditOption>
  {
    OfferIf(fs.present(JobJson), KeyJobJson, "Edit Transformed Job Data", JobJson)
  }

  /** `edit_options`, in insertion order. */
  function EditOptions(fs: FileSystem): seq<EditOption>
  {
    PersonalMarkdownOption(fs) + JobMarkdownOption(fs) + PersonalJsonOption(fs) + JobJsonOption(fs)
  }

  /** An option is offered exactly when one of the four parts offers it. */
  lemma EditOptionsMembership(fs: FileSystem)
    ensures forall o :: o in EditOptions(fs) <==>
              o in PersonalMarkdownOption(fs) || o in JobMarkdownOption(fs)
              || o in PersonalJsonOption(fs) || o in JobJsonOption(fs)
  {
  }

  predicate HasKey(options: seq<EditOption>, key: string)
  {
    exists o :: o in options && o.key == key
  }

  lemma KeysDiffer()
    ensures KeyPersonalMarkdown != KeyJobMarkdown && KeyPersonalMarkdown != KeyPersonalJson
    ensures KeyPersonalMarkdown != KeyJobJson && KeyJobMarkdown != KeyPersonalJson
    ensures KeyJobMarkdown != KeyJobJson && KeyPersonalJson != KeyJobJson
  {
  }

  predicate DistinctKeys(options: seq<EditOption>)
  {
    forall i, j :: 0 <= i < j < |options| ==> options[i].key != options[j].key
  }

  /** Each key is offered exactly when its file exists. */
  lemma EditOptionsOffered(fs: FileSystem)
    ensures var opts := EditOptions(fs);
      && (HasKey(opts, KeyPersonalMarkdown) <==> fs.present(PersonalMarkdown))
      && (HasKey(opts, KeyJobMarkdown) <==> fs.present(ExpandedJobMarkdown) || fs.present(JobMarkdown))
      && (HasKey(opts, KeyPersonalJson) <==> fs.present(PersonalJson))
      && (HasKey(opts, KeyJobJson) <==> fs.present(JobJson))
  {
    KeysDiffer();
    EditOptionsMembership(fs);
    var p1, p2, p3, p4 := PersonalMarkdownOption(fs), JobMarkdownOption(fs), PersonalJsonOption(fs), JobJsonOption(fs);
    if p1 != [] { assert p1[0] in p1; }
    if p2 != [] { assert p2[0] in p2; }
    if p3 != [] { assert p3[0] in p3; }
    if p4 != [] { assert p4[0] in p4; }
  }

  /** Each offered key opens its own file; `e2` prefers the expanded job
      description to the sanitized one. */
  lemma EditOptionPaths(fs: FileSystem)
    ensures var opts := EditOptions(fs);
      && (forall o :: o in opts && o.key == KeyPersonalMarkdown ==> o.path == PersonalMarkdown)
      && (forall o :: o in opts && o.key == KeyJobMarkdown ==>
            o.path == if fs.present(ExpandedJobMarkdown) then ExpandedJobMarkdown else JobMarkdown)
      && (forall o :: o in opts && o.key == KeyPersonalJson ==> o.path == PersonalJson)
      && (forall o :: o in opts && o.key == KeyJobJson ==> o.path == JobJson)
  {
  }

  /** No key is offered twice, so the list is a faithful picture of the dict. */
  lemma EditOptionKeysDistinct(fs: FileSystem)
    ensures DistinctKeys(EditOptions(fs))
  {
  }

  /** The lines printed under "Manual Overrides". */
  function OverrideLines(options: seq<EditOption>): seq<string>
  {
    if options == [] then [NoEditableMessage]
    else seq(|options|, i requires 0 <= i < |options| => options[i].key + ". " + options[i].text)
  }

  /** Every offered key is one of `e1` .. `e4`, so it starts with 'e'. */
  lemma EditOptionKeys(fs: FileSystem)
    ensures forall o :: o in EditOptions(fs) ==>
              o.key in [KeyPersonalMarkdown, KeyJobMarkdown, KeyPersonalJson, KeyJobJson]
    ensures forall o :: o in EditOptions(fs) ==> |o.key| > 0 && o.key[0] == 'e'
  {
  }

  /** The "nothing to edit" message is printed exactly when there is no
      option, because every option line starts with its key. */
  lemma NoEditableMessageShown(options: seq<EditOption>)
    requires forall o :: o in options ==> |o.key| > 0 && o.key[0] == 'e'
    ensures NoEditableMessage in OverrideLines(options) <==> options == []
  {
    if options != [] {
      var lines := OverrideLines(options);
      forall i | 0 <= i < |lines| ensures lines[i] != NoEditableMessage {
        assert options[i] in options;
        assert lines[i] == options[i].key + ". " + options[i].text;
        assert NoEditableMessage[0] == 'N';
        assert lines[i][0] == 'e';
      }
    }
  }

  /** What `display_menu` computes: both pipeline statuses, whether the job
      description has been expanded, the edit options and the lines printed
      for them. */
  datatype MenuView = MenuView(
    personalStatus: DataStatus,
    jobStatus: DataStatus,
    jobExpanded: bool,
    options: seq<EditOption>,
    overrideLines: seq<string>)

  function DisplayMenu(fs: FileSystem): (view: MenuView)
    ensures view.personalStatus == Transformed <==> fs.present(PersonalJson)
    ensures view.jobStatus == Transformed <==> fs.present(JobJson)
    ensures view.jobExpanded <==> fs.present(ExpandedJobMarkdown)
    ensures view.options == [] <==>
              !fs.present(PersonalMarkdown) && !fs.present(ExpandedJobMarkdown)
              && !fs.present(JobMarkdown) && !fs.present(PersonalJson) && !fs.present(JobJson)
    ensures NoEditableMessage in view.overrideLines <==> view.options == []
  {
    var options := EditOptions(fs);
    EditOptionKeys(fs);
    NoEditableMessageShown(options);
    MenuView(
      GetDataStatus(fs, PersonalRawDir, PersonalMarkdown, PersonalJson),
      GetDataStatus(fs, JobRawDir, JobMarkdown, JobJson),
      fs.present(ExpandedJobMarkdown),
      options,
      OverrideLines(options))
  }
}
