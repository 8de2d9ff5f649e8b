/** Choosing a power profile: masks with one bit each, read from the lines of a device file.

    A line is what extraction from a stream makes of it: the profile's number, the word after it
    and the rest of the text. */
module PowerProfiles {

  import opened Bits
  import opened Options

  const CUSTOM: nat := 0x1
  const VIDEO: nat := 0x2
  const POWER_SAVING: nat := 0x4
  const COMPUTE: nat := 0x8
  const VR: nat := 0x10
  const FULL_SCREEN_3D: nat := 0x20
  const BOOTUP_DEFAULT: nat := 0x40
  const INVALID: nat := 0xFFFF_FFFF_FFFF_FFFF

  const MAX_PROFILES: nat := 64

  datatype Line = Line(index: nat, word: string, rest: string)

  datatype Status = Success | OutOfBounds | UnexpectedSize | Failed

  /** What the device file says: the profiles there are, the current one, and the number of each. */
  datatype Profiles = Profiles(available: nat, current: nat, count: nat, numbers: map<nat, nat>)

  // ----- powers of two -----

  predicate IsPowerOf2(n: nat) {
    n != 0 && And(n, n - 1) == 0
  }

  lemma {:induction false} AndSelf(n: nat)
    ensures And(n, n) == n
  {
    if n != 0 {
      AndSelf(n / 2);
    }
  }

  lemma {:induction false} Pow2IsPowerOf2(k: nat)
    ensures IsPowerOf2(Pow2(k))
  {
    if k > 0 {
      Pow2IsPowerOf2(k - 1);
      assert And(Pow2(k), Pow2(k) - 1) == 2 * And(Pow2(k - 1), Pow2(k - 1) - 1);
    }
  }

  lemma {:induction false} PowerOf2IsPow2(n: nat) returns (k: nat)
    requires IsPowerOf2(n)
    ensures n == Pow2(k)
  {
    k := 0;
    if n % 2 == 0 {
      assert And(n, n - 1) == 2 * And(n / 2, n / 2 - 1);
      k := PowerOf2IsPow2(n / 2);
      k := k + 1;
    } else {
      assert And(n, n - 1) == 2 * And(n / 2, n / 2) || n == 1;
      AndSelf(n / 2);
    }
  }

  /** One bit and nothing else */
  ghost predicate IsOneBit(n: nat) {
    exists k: nat :: n == Pow2(k)
  }

  /** The bit trick finds the powers of two, whatever the width. */
  lemma FindsPowersOf2(n: nat)
    ensures IsPowerOf2(n) <==> IsOneBit(n)
  {
    if IsPowerOf2(n) {
      var k := PowerOf2IsPow2(n);
    } else if k: nat :| n == Pow2(k) {
      Pow2IsPowerOf2(k);
    }
  }

  // ----- names of profiles -----

  predicate IsSeparator(c: char) {
    c == '*' || c == ' ' || c == ':'
  }

  /** The text before the first separator. */
  function Name(s: string): (r: string)
    ensures r <= s && forall i :: 0 <= i < |r| ==> !IsSeparator(r[i])
    ensures |r| < |s| ==> IsSeparator(s[|r|])
  {
    if s == "" || IsSeparator(s[0]) then "" else [s[0]] + Name(s[1..])
  }

  /** There is only one prefix that ends before the first separator. */
  lemma NameIsUnique(s: string, r: string)
    requires r <= s && forall i :: 0 <= i < |r| ==> !IsSeparator(r[i])
    requires |r| < |s| ==> IsSeparator(s[|r|])
    ensures r == Name(s)
  {
    var n := Name(s);
    assert forall i :: 0 <= i < |r| ==> s[i] == r[i] && !IsSeparator(s[i]);
    assert forall i :: 0 <= i < |n| ==> s[i] == n[i] && !IsSeparator(s[i]);
    assert r == s[..|r|] && n == s[..|n|];
  }

  /** The first `n` characters are what comes before the first star, blank or colon. */
  predicate IsCut(word: string, n: nat) {
    && n <= |word|
    && (forall i :: 0 <= i < n ==> word[i] !in "* :")
    && (n < |word| ==> word[n] in "* :")
  }

  lemma NameIsCut(word: string, n: nat)
    ensures IsCut(word, n) <==> n == |Name(word)|
  {
    assert forall c :: IsSeparator(c) <==> c in "* :";
    if IsCut(word, n) {
      NameIsUnique(word, word[..n]);
    }
    var name := Name(word);
    assert forall i :: 0 <= i < |name| ==> word[i] == name[i];
  }

  /** The position of the last separator. */
  function FindLastOf(s: string): (pos: Option<nat>)
    ensures pos.None? ==> forall i :: 0 <= i < |s| ==> !IsSeparator(s[i])
    ensures pos.Some? ==> pos.value < |s| && IsSeparator(s[pos.value])
    ensures pos.Some? ==> forall i :: pos.value < i < |s| ==> !IsSeparator(s[i])
  {
    if s == "" then None
    else if IsSeparator(s[|s| - 1]) then Some(|s| - 1)
    else FindLastOf(s[..|s| - 1])
  }

  /** Cuts a word at its last separator for as long as it has one. */
  method Truncate(word: string) returns (mode: string)
    ensures mode == Name(word) && IsCut(word, |mode|)
  {
    mode := word;
    var tmp := FindLastOf(mode);
    while tmp.Some?
      invariant mode <= word && tmp == FindLastOf(mode)
      invariant |mode| < |word| ==> IsSeparator(word[|mode|])
      decreases |mode|
    {
      mode := mode[..tmp.value];
      tmp := FindLastOf(mode);
    }
    NameIsUnique(word, mode);
    NameIsCut(word, |mode|);
  }

  function ProfileOf(mode: string): nat {
    match mode
    case "BOOTUP_DEFAULT" => BOOTUP_DEFAULT
    case "3D_FULL_SCREEN" => FULL_SCREEN_3D
    case "POWER_SAVING" => POWER_SAVING
    case "VIDEO" => VIDEO
    case "VR" => VR
    case "COMPUTE" => COMPUTE
    case "CUSTOM" => CUSTOM
    case _ => INVALID
  }

  lemma ProfilesAreBits(mode: string) returns (k: nat)
    ensures ProfileOf(mode) != INVALID ==> ProfileOf(mode) == Pow2(k)
  {
    assert Pow2(3) == 8;
    assert Pow2(4) == 16 && Pow2(5) == 32 && Pow2(6) == 64;
    match ProfileOf(mode)
    case 0x1 => k := 0;
    case 0x2 => k := 1;
    case 0x4 => k := 2;
    case 0x8 => k := 3;
    case 0x10 => k := 4;
    case 0x20 => k := 5;
    case _ => k := 6;
  }

  /** The names that the command-line tool shows for masks and finds masks by. */
  const SHOWN: map<nat, string> :=
    map[1 := "CUSTOM", 2 := "VIDEO", 4 := "POWER SAVING", 8 := "COMPUTE", 16 := "VR", 32 := "3D FULL SCREEN",
        64 := "BOOTUP DEFAULT"]

  /** `s.replace('_', ' ')` */
  function Spaced(s: string): string {
    seq(|s|, i requires 0 <= i < |s| => if s[i] == '_' then ' ' else s[i])
  }

  function Underscored(s: string): string {
    seq(|s|, i requires 0 <= i < |s| => if s[i] == ' ' then '_' else s[i])
  }

  /** The word is the tool's name for the mask, with underscores for its blanks. */
  predicate Says(word: string, profile: nat) {
    ' ' !in word && profile in SHOWN && Spaced(word) == SHOWN[profile]
  }

  lemma SpacedBack(word: string)
    requires ' ' !in word
    ensures Underscored(Spaced(word)) == word
  {
  }

  lemma NameIsShown(mode: string)
    requires ProfileOf(mode) != INVALID
    ensures Says(mode, ProfileOf(mode))
  {
    var profile := ProfileOf(mode);
    assert |mode| == |SHOWN[profile]|;
    assert Spaced(mode) == SHOWN[profile];
  }

  lemma ShownIsName(profile: nat)
    requires profile in SHOWN
    ensures ProfileOf(Underscored(SHOWN[profile])) == profile
  {
    assert Underscored("CUSTOM") == "CUSTOM" && Underscored("VIDEO") == "VIDEO" && Underscored("VR") == "VR";
    assert Underscored("COMPUTE") == "COMPUTE" && Underscored("POWER SAVING") == "POWER_SAVING";
    assert Underscored("3D FULL SCREEN") == "3D_FULL_SCREEN";
    assert Underscored("BOOTUP DEFAULT") == "BOOTUP_DEFAULT";
  }

  /** The library reads a word as a mask if and only if the tool shows that mask by that name. */
  lemma NamesReadBack(word: string, profile: nat)
    ensures ProfileOf(word) == profile && profile != 0xFFFF_FFFF_FFFF_FFFF <==> Says(word, profile)
  {
    if ProfileOf(word) != INVALID {
      NameIsShown(word);
    }
    if Says(word, profile) {
      SpacedBack(word);
      ShownIsName(profile);
    }
  }

  function ProfileOn(line: Line): nat {
    ProfileOf(Name(line.word))
  }

  /** The line's word, cut at its first star, blank or colon, is the tool's name for the profile. */
  ghost predicate Offers(line: Line, profile: nat) {
    exists n: nat :: IsCut(line.word, n) && Says(line.word[..n], profile)
  }

  lemma OffersIsProfile(line: Line, profile: nat)
    ensures Offers(line, profile) <==> ProfileOn(line) == profile && profile != INVALID
  {
    var name := Name(line.word);
    NamesReadBack(name, profile);
    NameIsCut(line.word, |name|);
    assert line.word[..|name|] == name;
    if n: nat :| IsCut(line.word, n) && Says(line.word[..n], profile) {
      NameIsCut(line.word, n);
    }
  }

  /** The last line that offers the profile. */
  ghost predicate LastOffers(lines: seq<Line>, profile: nat, i: nat) {
    i < |lines| && Offers(lines[i], profile) && forall j :: i < j < |lines| ==> !Offers(lines[j], profile)
  }

  ghost predicate Offered(lines: seq<Line>, profile: nat) {
    exists i :: 0 <= i < |lines| && Offers(lines[i], profile)
  }

  /** A line with a star that offers some profile. */
  ghost predicate MarksCurrent(line: Line) {
    ('*' in line.word || '*' in line.rest) && exists profile :: Offers(line, profile)
  }

  /** The last line that marks a current profile. */
  ghost predicate LastMarks(lines: seq<Line>, i: nat) {
    i < |lines| && MarksCurrent(lines[i]) && forall j :: i < j < |lines| ==> !MarksCurrent(lines[j])
  }

  ghost predicate Marked(lines: seq<Line>) {
    exists i :: 0 <= i < |lines| && MarksCurrent(lines[i])
  }

  predicate IsStarred(line: Line) {
    '*' in line.word || '*' in line.rest
  }

  method PowerProfStringToInt(line: Line) returns (profile: nat, isCurr: bool, index: nat)
    ensures profile == ProfileOn(line) && isCurr == IsStarred(line) && index == line.index
  {
    var mode := Truncate(line.word);
    profile, isCurr, index := ProfileOf(mode), '*' in line.word || '*' in line.rest, line.index;
  }

  // ----- the device file -----

  /** The number of the last line that names a profile. */
  function NumberOf(lines: seq<Line>, profile: nat): Option<nat> {
    if lines == [] then None
    else if ProfileOn(lines[|lines| - 1]) == profile then Some(lines[|lines| - 1].index)
    else NumberOf(lines[..|lines| - 1], profile)
  }

  /** The last profile that a line marks with a star. */
  function CurrentOf(lines: seq<Line>): nat {
    if lines == [] then INVALID
    else
      var last := lines[|lines| - 1];
      if ProfileOn(last) != INVALID && IsStarred(last) then ProfileOn(last) else CurrentOf(lines[..|lines| - 1])
  }

  lemma {:induction false} NumberIsOfLastOffer(lines: seq<Line>, profile: nat)
    requires profile != INVALID
    ensures NumberOf(lines, profile).Some? <==> Offered(lines, profile)
    ensures forall i: nat :: LastOffers(lines, profile, i) ==> NumberOf(lines, profile) == Some(lines[i].index)
  {
    if lines != [] {
      var n := |lines| - 1;
      NumberIsOfLastOffer(lines[..n], profile);
      OffersIsProfile(lines[n], profile);
      forall i: nat | LastOffers(lines, profile, i) && i < n
        ensures LastOffers(lines[..n], profile, i)
      {
      }
    }
  }

  lemma MarksIfKnown(line: Line)
    ensures MarksCurrent(line) <==> ProfileOn(line) != INVALID && IsStarred(line)
    ensures ProfileOn(line) != INVALID ==> Offers(line, ProfileOn(line))
  {
    OffersIsProfile(line, ProfileOn(line));
    if profile :| Offers(line, profile) {
      OffersIsProfile(line, profile);
    }
  }

  lemma {:induction false} CurrentIfMarked(lines: seq<Line>)
    ensures CurrentOf(lines) != INVALID <==> Marked(lines)
  {
    if lines != [] {
      var n := |lines| - 1;
      CurrentIfMarked(lines[..n]);
      MarksIfKnown(lines[n]);
      assert Marked(lines) <==> Marked(lines[..n]) || MarksCurrent(lines[n]);
    }
  }

  lemma {:induction false} CurrentIsLastMarked(lines: seq<Line>, i: nat)
    requires LastMarks(lines, i)
    ensures Offers(lines[i], CurrentOf(lines))
  {
    var n := |lines| - 1;
    MarksIfKnown(lines[n]);
    if i < n {
      assert !MarksCurrent(lines[n]);
      assert LastMarks(lines[..n], i);
      CurrentIsLastMarked(lines[..n], i);
    }
  }

  /** The bits, the map of numbers and the lines agree on which profiles there are. */
  ghost predicate Agree(available: nat, numbers: map<nat, nat>, lines: seq<Line>) {
    && (forall k: nat :: Bit(available, k) <==> Pow2(k) in numbers)
    && (forall profile: nat :: profile in numbers <==> profile != INVALID && NumberOf(lines, profile).Some?)
    && (forall profile: nat :: profile in numbers ==> NumberOf(lines, profile) == Some(numbers[profile]))
  }

  lemma Pow2IsInjective(i: nat, k: nat)
    requires Pow2(i) == Pow2(k)
    ensures i == k
  {
    Pow2Bits(i, k);
    Pow2Bits(k, k);
  }

  /** Another line that names a profile sets the profile's bit and its number. */
  lemma AgreeOneMore(available: nat, numbers: map<nat, nat>, lines: seq<Line>, line: Line)
    requires Agree(available, numbers, lines)
    ensures ProfileOn(line) != INVALID ==>
      Agree(Or(available, ProfileOn(line)), numbers[ProfileOn(line) := line.index], lines + [line])
    ensures ProfileOn(line) == INVALID ==> Agree(available, numbers, lines + [line])
  {
    var more, profile := lines + [line], ProfileOn(line);
    assert more[..|more| - 1] == lines && more[|more| - 1] == line;
    assert forall p :: NumberOf(more, p) == if p == profile then Some(line.index) else NumberOf(lines, p);
    if profile != INVALID {
      var bit := ProfilesAreBits(Name(line.word));
      forall k: nat
        ensures Bit(Or(available, profile), k) <==> Pow2(k) in numbers[profile := line.index]
      {
        OrBits(available, profile, k);
        Pow2Bits(bit, k);
        if Pow2(k) == profile {
          Pow2IsInjective(k, bit);
        }
      }
    }
  }

  /** A profile has its bit, and a number, if and only if some line offers it; the number is that of the
      last such line. The current profile is that of the last line with a star, if there is one. */
  ghost predicate Reports(p: Profiles, lines: seq<Line>) {
    && (forall k: nat :: Bit(p.available, k) <==> Offered(lines, Pow2(k)))
    && (forall profile: nat :: profile in p.numbers <==> Offered(lines, profile))
    && (forall profile: nat, i: nat :: LastOffers(lines, profile, i) ==>
          profile in p.numbers && p.numbers[profile] == lines[i].index)
    && (p.current != 0xFFFF_FFFF_FFFF_FFFF <==> Marked(lines))
    && (forall i: nat :: LastMarks(lines, i) ==> Offers(lines[i], p.current))
  }

  lemma AgreeingReports(p: Profiles, lines: seq<Line>)
    requires Agree(p.available, p.numbers, lines) && p.current == CurrentOf(lines)
    ensures Reports(p, lines)
  {
    CurrentIfMarked(lines);
    forall i: nat | LastMarks(lines, i)
      ensures Offers(lines[i], p.current)
    {
      CurrentIsLastMarked(lines, i);
    }
    forall profile: nat
      ensures profile in p.numbers <==> Offered(lines, profile)
      ensures forall i: nat :: LastOffers(lines, profile, i) ==>
        profile in p.numbers && p.numbers[profile] == lines[i].index
    {
      if profile != INVALID {
        NumberIsOfLastOffer(lines, profile);
      }
    }
  }

  /** Reads all lines but the header. */
  method GetPowerProfiles(file: Option<seq<Line>>) returns (status: Status, p: Profiles)
    ensures status == match file
                      case None => Failed
                      case Some(lines) => if lines == [] || |lines| > MAX_PROFILES + 1 then UnexpectedSize else Success
    ensures status == Success ==>
      && p.count == |file.value| - 1
      && p.current == CurrentOf(file.value[1..])
      && Agree(p.available, p.numbers, file.value[1..])
    ensures status == Success ==> Reports(p, file.value[1..])
  {
    p := Profiles(0, INVALID, 0, map[]);
    if file.None? {
      return Failed, p;
    }
    var lines := file.value;
    if |lines| > MAX_PROFILES + 1 || lines == [] {
      return UnexpectedSize, p;
    }
    p := p.(count := |lines| - 1);
    forall k: nat
      ensures !Bit(0, k)
    {
      NoBits(k);
    }
    for i := 1 to |lines|
      invariant p.count == |lines| - 1 && p.current == CurrentOf(lines[1..i])
      invariant Agree(p.available, p.numbers, lines[1..i])
    {
      assert lines[1..i + 1] == lines[1..i] + [lines[i]];
      AgreeOneMore(p.available, p.numbers, lines[1..i], lines[i]);
      var profile, isCurr, index := PowerProfStringToInt(lines[i]);
      if profile == INVALID {
        continue;
      }
      p := p.(numbers := p.numbers[profile := index], available := Or(p.available, profile));
      if isCurr {
        p := p.(current := profile);
      }
    }
    assert lines[1..|lines|] == lines[1..];
    status := Success;
    AgreeingReports(p, lines[1..]);
  }

  /** Asks for a profile by its mask: `written` is the number sent to the device, if one is. The
      two flags say whether the driver accepts the manual performance level and the number. */
  method SetPowerProfile(profile: nat, file: Option<seq<Line>>, levelSet: bool, numberSet: bool)
    returns (status: Status, written: Option<nat>)
    ensures !IsOneBit(profile) ==> status == OutOfBounds && written == None
    ensures IsOneBit(profile) && (file.None? || file.value == [] || |file.value| > MAX_PROFILES + 1) ==>
      status == (if file.None? then Failed else UnexpectedSize) && written == None
    ensures file.Some? && 0 < |file.value| <= MAX_PROFILES + 1 ==>
      var number := if profile == INVALID then None else NumberOf(file.value[1..], profile);
      && (status == OutOfBounds <==> number == None)
      && written == (if levelSet then number else None)
      && (status == Success <==> number.Some? && levelSet && numberSet)
    ensures file.Some? && 0 < |file.value| <= MAX_PROFILES + 1 ==>
      var lines := file.value[1..];
      && (status == OutOfBounds <==> !Offered(lines, profile))
      && (status == Success <==> Offered(lines, profile) && levelSet && numberSet)
      && (written.Some? <==> Offered(lines, profile) && levelSet)
      && forall i: nat :: LastOffers(lines, profile, i) && levelSet ==> written == Some(lines[i].index)
  {
    if file.Some? && file.value != [] && profile != INVALID {
      NumberIsOfLastOffer(file.value[1..], profile);
    }
    FindsPowersOf2(profile);
    if !IsPowerOf2(profile) {
      if file.Some? && file.value != [] && profile != INVALID {
        OthersHaveNoNumber(file.value[1..], profile);
      }
      return OutOfBounds, None;
    }
    ghost var k: nat :| profile == Pow2(k);
    var p;
    status, p := GetPowerProfiles(file);
    if status != Success {
      return status, None;
    }
    MasksBit(p.available, k);
    InvalidIsNoPower(k);
    if And(profile, p.available) == 0 {
      return OutOfBounds, None;
    }
    assert profile in p.numbers;
    if !levelSet {
      return Failed, None;
    }
    written := Some(p.numbers[profile]);
    status := if numberSet then Success else Failed;
  }

  /** Only powers of two and the invalid mask are on a line. */
  lemma {:induction false} OthersHaveNoNumber(lines: seq<Line>, profile: nat)
    requires !IsPowerOf2(profile) && profile != INVALID
    ensures NumberOf(lines, profile) == None
  {
    if lines != [] {
      var k := ProfilesAreBits(Name(lines[|lines| - 1].word));
      FindsPowersOf2(profile);
      OthersHaveNoNumber(lines[..|lines| - 1], profile);
    }
  }

  /** A mask of one bit tells whether that bit is set. */
  lemma MasksBit(a: nat, k: nat)
    ensures And(Pow2(k), a) != 0 <==> Bit(a, k)
  {
    if And(Pow2(k), a) != 0 {
      var i := SomeBit(And(Pow2(k), a));
      AndBits(Pow2(k), a, i);
      Pow2Bits(k, i);
    } else {
      AndBits(Pow2(k), a, k);
      Pow2Bits(k, k);
      NoBits(k);
    }
  }

  lemma InvalidIsNoPower(k: nat)
    ensures Pow2(k) != INVALID
  {
    if k > 0 {
      assert Pow2(k) == 2 * Pow2(k - 1);
    }
  }
}
