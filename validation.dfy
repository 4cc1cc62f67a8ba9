/** The checks made before any work is done: validate_input on the input
    file, and the range checks main makes on the command-line numbers. */
module Validation {
  import opened Wrappers

  /** The index of the last '.' in `name`, or -1 when there is none
      (str.rfind). */
  function LastDot(name: string): (i: int)
    ensures -1 <= i < |name|
    ensures i >= 0 ==> name[i] == '.'
    ensures forall j :: i < j < |name| ==> name[j] != '.'
  {
    if name == [] then -1
    else if name[|name| - 1] == '.' then |name| - 1
    else LastDot(name[..|name| - 1])
  }

  /** A file name has an extension when its last dot is neither its first
      nor its last character. */
  predicate HasSuffix(name: string) {
    0 < LastDot(name) < |name| - 1
  }

  /** Path.suffix of a file name: from the last dot on, or empty. */
  function Suffix(name: string): (s: string)
    ensures s == [] || (|s| >= 2 && s[0] == '.' && forall j :: 1 <= j < |s| ==> s[j] != '.')
    ensures s != [] ==> |s| < |name| && s == name[|name| - |s|..]
    ensures s == [] <==> !(0 < LastDot(name) < |name| - 1)
    ensures s != [] ==> |s| == |name| - LastDot(name)
  {
    if HasSuffix(name) then name[LastDot(name)..] else []
  }

  /** Path.stem of a file name: everything before the suffix. */
  function Stem(name: string): (s: string)
    ensures |s| <= |name| && s == name[..|s|]
  {
    if HasSuffix(name) then name[..LastDot(name)] else name
  }

  /** The stem and the suffix split the name, and the stem is empty only
      for an empty name. */
  lemma StemAndSuffix(name: string)
    ensures Stem(name) + Suffix(name) == name
    ensures Stem(name) == [] <==> name == []
  {
    if HasSuffix(name) {
      assert name == name[..LastDot(name)] + name[LastDot(name)..];
    }
  }

  /** A name with no dot, or whose only dot leads it or ends it, has no
      suffix. */
  lemma NoSuffix(name: string)
    requires forall j :: 0 < j < |name| - 1 ==> name[j] != '.'
    ensures Suffix(name) == [] && Stem(name) == name
  {
  }

  /** str.lower on ASCII letters. */
  function Lower(c: char): (l: char)
    ensures 'A' <= c <= 'Z' ==> l as int == c as int + 32
    ensures !('A' <= c <= 'Z') ==> l == c
  {
    if 'A' <= c <= 'Z' then (c as int + 32) as char else c
  }

  function LowerString(s: string): (l: string)
    ensures |l| == |s| && forall i :: 0 <= i < |s| ==> l[i] == Lower(s[i])
  {
    seq(|s|, i requires 0 <= i < |s| => Lower(s[i]))
  }

  /** The suffix test of validate_input: lower-cased, it is ".jpg" or
      ".jpeg". */
  predicate IsJpegSuffix(suffix: string) {
    LowerString(suffix) == ".jpg" || LowerString(suffix) == ".jpeg"
  }

  /** A lower-case letter is matched by itself and by its capital only. */
  lemma LowerMatches(c: char, letter: char)
    requires 'a' <= letter <= 'z'
    ensures Lower(c) == letter <==> c == letter || c as int == letter as int - 32
  {
  }

  /** The accepted suffixes spelt out: a dot, then j, p, g or j, p, e, g in
      either case, letter by letter. */
  lemma JpegSuffixCases(suffix: string)
    ensures IsJpegSuffix(suffix) <==>
      (|suffix| == 4 && suffix[0] == '.' && suffix[1] in "jJ" && suffix[2] in "pP" && suffix[3] in "gG") ||
      (|suffix| == 5 && suffix[0] == '.' && suffix[1] in "jJ" && suffix[2] in "pP" && suffix[3] in "eE" &&
       suffix[4] in "gG")
  {
    var l := LowerString(suffix);
    if |suffix| == 4 || |suffix| == 5 {
      LowerMatches(suffix[1], 'j');
      LowerMatches(suffix[2], 'p');
      LowerMatches(suffix[3], if |suffix| == 4 then 'g' else 'e');
      if |suffix| == 5 {
        LowerMatches(suffix[4], 'g');
      }
      assert Lower(suffix[0]) == '.' <==> suffix[0] == '.';
      if |suffix| == 4 {
        assert l == ".jpg" <==> l[0] == '.' && l[1] == 'j' && l[2] == 'p' && l[3] == 'g';
      } else {
        assert l == ".jpeg" <==> l[0] == '.' && l[1] == 'j' && l[2] == 'p' && l[3] == 'e' && l[4] == 'g';
      }
    }
  }

  /** The smallest width and height accepted. */
  const MinSide: nat := 16

  /** Why an input is refused, in the order validate_input tests. */
  datatype InputError =
    | Missing
    | NotJpeg(suffix: string)
    | Unreadable
    | TooSmall(width: nat, height: nat)

  /** validate_input. `present` tells whether the path names a file; `size`
      is the decoded image's width and height, None when the file cannot
      be read as an image. */
  function ValidateInput(name: string, present: bool, size: Option<(nat, nat)>): (r: Result<(), InputError>)
    ensures r.Success? <==>
      present && IsJpegSuffix(Suffix(name)) && size.Some? && size.value.0 >= MinSide && size.value.1 >= MinSide
    ensures !present ==> r == Failure(Missing)
    ensures present && !IsJpegSuffix(Suffix(name)) ==> r == Failure(NotJpeg(Suffix(name)))
    ensures present && IsJpegSuffix(Suffix(name)) && size.None? ==> r == Failure(Unreadable)
    ensures present && IsJpegSuffix(Suffix(name)) && size.Some? && (size.value.0 < MinSide || size.value.1 < MinSide) ==>
      r == Failure(TooSmall(size.value.0, size.value.1))
    ensures r.Failure? && r.error.Unreadable? ==> size.None?
    ensures r.Failure? && r.error.TooSmall? ==>
      size.Some? && r.error == TooSmall(size.value.0, size.value.1) &&
      (size.value.0 < MinSide || size.value.1 < MinSide)
  {
    if !present then Failure(Missing)
    else if !IsJpegSuffix(Suffix(name)) then Failure(NotJpeg(Suffix(name)))
    else if size.None? then Failure(Unreadable)
    else if size.value.0 < MinSide || size.value.1 < MinSide then Failure(TooSmall(size.value.0, size.value.1))
    else Success(())
  }

  /** The numbers main passes on once they are in range. */
  datatype Settings = Settings(quality: nat, threshold: nat)

  datatype ArgumentError = QualityOutOfRange | ThresholdOutOfRange

  /** The command line's defaults. */
  const DefaultQuality: int := 95
  const DefaultThreshold: int := 240

  /** main's checks: quality in 1 .. 100 first, then the threshold in
      0 .. 255. */
  function CheckArguments(quality: int, threshold: int): (r: Result<Settings, ArgumentError>)
    ensures r.Success? <==> 1 <= quality <= 100 && 0 <= threshold <= 255
    ensures r.Success? ==> r.value.quality == quality && r.value.threshold == threshold
    ensures !(1 <= quality <= 100) ==> r == Failure(QualityOutOfRange)
    ensures 1 <= quality <= 100 && !(0 <= threshold <= 255) ==> r == Failure(ThresholdOutOfRange)
  {
    if !(1 <= quality <= 100) then Failure(QualityOutOfRange)
    else if !(0 <= threshold <= 255) then Failure(ThresholdOutOfRange)
    else Success(Settings(quality, threshold))
  }

  /** Run with no options, main accepts its own defaults. */
  lemma DefaultsAccepted()
    ensures CheckArguments(DefaultQuality, DefaultThreshold) == Success(Settings(95, 240))
  {
  }
}
