/** Names of vendors and devices, scanned line by line from pci.ids files.

    A file is a tree written with tabs: vendor lines start in the first column, the devices of a
    vendor follow with one tab, and their subsystems with two. */
module PciIds {

  import opened Numbers
  import opened Options

  // ----- one line -----

  predicate IsSpace(c: char) {
    c == ' ' || c == '\t' || c == '\n' || c == '\r' || c == '\U{B}' || c == '\U{C}'
  }

  predicate IsBlank(c: char) {
    c == ' ' || c == '\t'
  }

  function Skip(s: string): string {
    if s != "" && IsSpace(s[0]) then Skip(s[1..]) else s
  }

  function SkipBlanks(s: string): string {
    if s != "" && IsBlank(s[0]) then SkipBlanks(s[1..]) else s
  }

  function Token(s: string): (t: string)
    ensures |t| <= |s|
  {
    if s == "" || IsSpace(s[0]) then "" else [s[0]] + Token(s[1..])
  }

  function HexDigit(c: char): Option<nat> {
    if '0' <= c <= '9' then Some((c - '0') as nat)
    else if 'a' <= c <= 'f' then Some((c - 'a') as nat + 10)
    else if 'A' <= c <= 'F' then Some((c - 'A') as nat + 10)
    else None
  }

  /** The number that the digits in front of a text stand for, after digits that stand for `value`. */
  function HexFrom(s: string, value: nat): nat {
    if s == "" || HexDigit(s[0]).None? then value
    else HexFrom(s[1..], 16 * value + HexDigit(s[0]).value)
  }

  /** A token as a hexadecimal number, which may start with `0x`. */
  function Hex(token: string): Option<nat> {
    var digits := if |token| > 2 && token[0] == '0' && (token[1] == 'x' || token[1] == 'X') && HexDigit(token[2]).Some?
                  then token[2..] else token;
    if digits == "" || HexDigit(digits[0]).None? || HexFrom(digits, 0) >= UINT64 then None
    else Some(HexFrom(digits, 0))
  }

  /** What a line says about an id: another one, its name, or nothing that can be read. */
  datatype Match = Other | Named(name: string) | Unreadable

  /** A line without a token or a number throws; so does one with this id and nothing after it. */
  function IdName(id: nat, ln: string): (m: Match)
    ensures m.Named? ==> m.name != ""
  {
    var text := Skip(ln);
    var token := Token(text);
    if token == "" || Hex(token).None? then Unreadable
    else if Hex(token).value != id then Other
    else
      var name := SkipBlanks(text[|token|..]);
      if name == "" then Unreadable else Named(name)
  }

  // ----- the tree -----

  datatype Kind = Ignored | VendorLine | DeviceLine | SubsystemLine

  function KindOf(ln: string): Kind {
    if ln == "" || ln[0] == '#' then Ignored
    else if ln[0] != '\t' then VendorLine
    else if |ln| > 1 && ln[1] == '\t' then SubsystemLine
    else DeviceLine
  }

  /** A vendor's line and the lines of its devices. */
  datatype Vendor = Vendor(line: string, devices: seq<string>)

  /** The device lines before the first vendor. */
  function Orphans(lines: seq<string>): seq<string> {
    if lines == [] || KindOf(lines[0]) == VendorLine then []
    else (if KindOf(lines[0]) == DeviceLine then [lines[0]] else []) + Orphans(lines[1..])
  }

  function Tree(lines: seq<string>): seq<Vendor> {
    if lines == [] then []
    else if KindOf(lines[0]) == VendorLine then [Vendor(lines[0], Orphans(lines[1..]))] + Tree(lines[1..])
    else Tree(lines[1..])
  }

  // ----- looking up -----

  /** The outcome of a query: a name, the id of the vendor or of the device in place of one, or
      an exception. */
  datatype Answer = Name(name: string) | VendorId | DeviceId | Thrown

  /** The first line that is not about another id. */
  function FirstMatch(id: nat, lines: seq<string>): Match {
    if lines == [] then Other
    else if IdName(id, lines[0]) != Other then IdName(id, lines[0])
    else FirstMatch(id, lines[1..])
  }

  /** The first vendor that is not another one. */
  function VendorAt(id: nat, tree: seq<Vendor>): (i: nat)
    ensures i <= |tree|
    ensures i < |tree| ==> IdName(id, tree[i].line) != Other
    ensures forall j :: 0 <= j < i ==> IdName(id, tree[j].line) == Other
  {
    if tree == [] || IdName(id, tree[0].line) != Other then 0 else 1 + VendorAt(id, tree[1..])
  }

  function VendorName(vendor: nat, tree: seq<Vendor>): Answer {
    var i := VendorAt(vendor, tree);
    if i == |tree| then VendorId
    else
      match IdName(vendor, tree[i].line)
      case Named(name) => Name(name)
      case _ => Thrown
  }

  /** A device that its vendor's block does not list is called by its own id if another vendor
      follows, and by its vendor's id if the block is the last. */
  function DeviceName(vendor: nat, device: nat, tree: seq<Vendor>): Answer {
    var i := VendorAt(vendor, tree);
    if i == |tree| then VendorId
    else if IdName(vendor, tree[i].line).Unreadable? then Thrown
    else
      match FirstMatch(device, tree[i].devices)
      case Named(name) => Name(name)
      case Unreadable => Thrown
      case Other => if i + 1 < |tree| then DeviceId else VendorId
  }

  datatype Query = ForVendor(vendor: nat) | ForDevice(vendor: nat, device: nat)

  function Lookup(query: Query, tree: seq<Vendor>): Answer {
    match query
    case ForVendor(vendor) => VendorName(vendor, tree)
    case ForDevice(vendor, device) => DeviceName(vendor, device, tree)
  }

  // ----- the scan -----

  /** The scan of the lines that are left, by what is known so far. */
  function Scan(query: Query, lines: seq<string>, found: bool): Answer
    requires found ==> query.ForDevice?
  {
    if lines == [] then VendorId
    else
      var ln, rest := lines[0], lines[1..];
      match KindOf(ln)
      case Ignored => Scan(query, rest, found)
      case SubsystemLine => Scan(query, rest, found)
      case DeviceLine =>
        if !found then Scan(query, rest, found)
        else
          (match IdName(query.device, ln)
           case Named(name) => Name(name)
           case Unreadable => Thrown
           case Other => Scan(query, rest, found))
      case VendorLine =>
        if found then DeviceId
        else
          match IdName(query.vendor, ln)
          case Named(name) => if query.ForVendor? then Name(name) else Scan(query, rest, true)
          case Unreadable => Thrown
          case Other => Scan(query, rest, found)
  }

  /** Once the vendor is found, the scan looks through the devices up to the next vendor. */
  lemma {:induction false} ScanOfDevices(query: Query, lines: seq<string>)
    requires query.ForDevice?
    ensures Scan(query, lines, true) == match FirstMatch(query.device, Orphans(lines))
                                        case Named(name) => Name(name)
                                        case Unreadable => Thrown
                                        case Other => if Tree(lines) != [] then DeviceId else VendorId
  {
    if lines != [] && KindOf(lines[0]) != VendorLine {
      ScanOfDevices(query, lines[1..]);
      if KindOf(lines[0]) == DeviceLine {
        assert ([lines[0]] + Orphans(lines[1..]))[1..] == Orphans(lines[1..]);
      } else {
        assert [] + Orphans(lines[1..]) == Orphans(lines[1..]);
      }
    }
  }

  /** A vendor in front answers for itself; if it is another one, the others answer. */
  lemma LookupFromFront(query: Query, first: Vendor, others: seq<Vendor>)
    ensures IdName(query.vendor, first.line) == Other ==> Lookup(query, [first] + others) == Lookup(query, others)
    ensures IdName(query.vendor, first.line) != Other ==> VendorAt(query.vendor, [first] + others) == 0
  {
    var tree := [first] + others;
    assert tree[0] == first && tree[1..] == others;
    if IdName(query.vendor, first.line) == Other {
      var i := VendorAt(query.vendor, others);
      assert VendorAt(query.vendor, tree) == i + 1;
      assert i < |others| ==> tree[i + 1] == others[i];
    }
  }

  /** Scanning lines is looking up in the tree they write down. */
  lemma {:induction false} ScanIsLookup(query: Query, lines: seq<string>)
    ensures Scan(query, lines, false) == Lookup(query, Tree(lines))
  {
    if lines != [] {
      var ln, rest := lines[0], lines[1..];
      ScanIsLookup(query, rest);
      if KindOf(ln) == VendorLine {
        LookupFromFront(query, Vendor(ln, Orphans(rest)), Tree(rest));
        if query.ForDevice? {
          ScanOfDevices(query, rest);
        }
      }
    }
  }

  /** All lines of some files. */
  function Lines(files: seq<seq<string>>): seq<string> {
    if files == [] then [] else files[0] + Lines(files[1..])
  }

  /** The answer that is left to find. */
  ghost function Rest(query: Query, found: bool, valStr: string, ended: Option<Answer>, rest: seq<string>): Answer
    requires found ==> query.ForDevice?
  {
    if ended.Some? then ended.value
    else if valStr != "" then Name(valStr)
    else Scan(query, rest, found)
  }

  /** What the scan does with one line: it ends, or finds a name, or goes on. */
  method ScanLine(query: Query, ln: string, found: bool, ghost rest: seq<string>)
    returns (found': bool, valStr: string, ended: Option<Answer>)
    requires found ==> query.ForDevice?
    ensures found' ==> query.ForDevice?
    ensures Scan(query, [ln] + rest, found) == Rest(query, found', valStr, ended, rest)
  {
    assert ([ln] + rest)[1..] == rest;
    found', valStr, ended := found, "", None;
    if ln == "" || ln[0] == '#' {
      return;
    }
    if ln[0] == '\t' {
      if found {
        if |ln| == 1 || ln[1] != '\t' {
          match IdName(query.device, ln)
          case Unreadable => ended := Some(Thrown);
          case Other =>
          case Named(name) => valStr := name;
        }
      }
    } else {
      if found {
        return found, "", Some(DeviceId);
      }
      match IdName(query.vendor, ln)
      case Unreadable => ended := Some(Thrown);
      case Other =>
      case Named(name) =>
        if query.ForVendor? {
          valStr := name;
        } else {
          found' := true;
        }
    }
  }

  /** Reads the lines of one file until a name is found. */
  method ScanFile(query: Query, file: seq<string>, found: bool, ghost later: seq<string>)
    returns (found': bool, valStr: string, ended: Option<Answer>)
    requires found ==> query.ForDevice?
    ensures found' ==> query.ForDevice?
    ensures Scan(query, file + later, found) == Rest(query, found', valStr, ended, later)
  {
    found', valStr, ended := found, "", None;
    for i := 0 to |file|
      invariant found' ==> query.ForDevice?
      invariant valStr == "" && ended.None?
      invariant Scan(query, file + later, found) == Scan(query, file[i..] + later, found')
    {
      ghost var rest := file[i + 1..] + later;
      assert file[i..] + later == [file[i]] + rest;
      found', valStr, ended := ScanLine(query, file[i], found', rest);
      if valStr != "" || ended.Some? {
        return;
      }
    }
    assert file[|file|..] + later == later;
  }

  /** Reads file after file, keeping what is known from one to the next, until a name is found. A
      file that cannot be opened has no lines. */
  method ScanFiles(query: Query, files: seq<seq<string>>) returns (answer: Answer)
    ensures answer == Lookup(query, Tree(Lines(files)))
  {
    ScanIsLookup(query, Lines(files));
    ghost var goal := Scan(query, Lines(files), false);
    var found, valStr, ended := false, "", None;
    for f := 0 to |files|
      invariant found ==> query.ForDevice?
      invariant valStr == ""
      invariant goal == Scan(query, Lines(files[f..]), found)
    {
      assert files[f..][1..] == files[f + 1..];
      found, valStr, ended := ScanFile(query, files[f], found, Lines(files[f + 1..]));
      if ended.Some? {
        return ended.value;
      }
      if valStr != "" {
        break;
      }
    }
    answer := if valStr == "" then VendorId else Name(valStr);
  }

  /** A vendor that lists no such device: what the scan puts in place of the name depends on whether
      another vendor follows. */
  lemma UnlistedDevice(vendor: nat, device: nat, lines: seq<string>)
    requires var tree := Tree(lines);
      var i := VendorAt(vendor, tree);
      i < |tree| && IdName(vendor, tree[i].line).Named? && FirstMatch(device, tree[i].devices) == Other
    ensures var answer, i := Scan(ForDevice(vendor, device), lines, false), VendorAt(vendor, Tree(lines));
      && (answer == VendorId <==> i == |Tree(lines)| - 1)
      && (answer == DeviceId <==> i < |Tree(lines)| - 1)
  {
    ScanIsLookup(ForDevice(vendor, device), lines);
  }

  /** The one vendor of a file, without devices: its device is called by its vendor's number. */
  lemma LastVendorsDevice(device: nat)
    ensures Scan(ForDevice(10, device), ["a b"], false) == VendorId
  {
    var ln := "a b";
    assert Orphans([]) == [] && ["a b"][1..] == [];
    assert Token(" b") == "" && Token(ln) == "a" by {
      assert ln[1..] == " b";
    }
    assert HexFrom("a", 0) == 10 by {
      assert HexFrom("a"[1..], 10) == 10;
    }
    assert SkipBlanks(" b") == "b" by {
      assert " b"[1..] == "b";
    }
    assert Skip(ln) == ln && ln[1..] == " b";
    assert IdName(10, ln) == Named("b");
    assert Tree([ln]) == [Vendor(ln, [])];
    UnlistedDevice(10, device, [ln]);
  }

  // ----- what lines say, taken apart -----

  const LOWER := "0123456789abcdef"
  const UPPER := "0123456789ABCDEF"

  /** The character is a hexadecimal digit, and its place among them is `d`. */
  predicate IsDigit(c: char, d: nat) {
    d < 16 && (c == LOWER[d] || c == UPPER[d])
  }

  lemma DigitHasPlace(c: char, d: nat)
    ensures IsDigit(c, d) <==> HexDigit(c) == Some(d)
  {
  }

  /** A text of hexadecimal digits, at least one, that stands for the number. */
  predicate IsNumeral(t: string, id: nat) {
    |t| > 0 && IsDigit(t[|t| - 1], id % 16) && if |t| == 1 then id < 16 else IsNumeral(t[..|t| - 1], id / 16)
  }

  predicate AllBlank(b: string) {
    forall i :: 0 <= i < |b| ==> b[i] in " \t"
  }

  predicate AreDigits(s: string) {
    forall i :: 0 <= i < |s| ==> HexDigit(s[i]).Some?
  }

  lemma {:induction false} HexFromMore(s: string, c: char, value: nat)
    requires AreDigits(s) && HexDigit(c).Some?
    ensures HexFrom(s + [c], value) == 16 * HexFrom(s, value) + HexDigit(c).value
  {
    if s == "" {
      assert HexFrom([c], value) == HexFrom([c][1..], 16 * value + HexDigit(c).value);
    } else {
      assert (s + [c])[1..] == s[1..] + [c];
      HexFromMore(s[1..], c, 16 * value + HexDigit(s[0]).value);
    }
  }

  lemma {:induction false} NumeralIsHex(t: string, id: nat)
    requires IsNumeral(t, id)
    ensures AreDigits(t) && HexFrom(t, 0) == id
  {
    var n := |t| - 1;
    DigitHasPlace(t[n], id % 16);
    assert t == t[..n] + [t[n]];
    if n > 0 {
      NumeralIsHex(t[..n], id / 16);
    }
    HexFromMore(t[..n], t[n], 0);
  }

  lemma {:induction false} SkipOf(w: string, x: string)
    requires (forall i :: 0 <= i < |w| ==> IsSpace(w[i])) && (x == "" || !IsSpace(x[0]))
    ensures Skip(w + x) == x
  {
    if w == "" {
      assert w + x == x;
    } else {
      assert (w + x)[1..] == w[1..] + x;
      SkipOf(w[1..], x);
    }
  }

  lemma {:induction false} SkipBlanksOf(b: string, x: string)
    requires AllBlank(b) && (x == "" || !IsBlank(x[0]))
    ensures SkipBlanks(b + x) == x
  {
    if b == "" {
      assert b + x == x;
    } else {
      assert (b + x)[1..] == b[1..] + x;
      SkipBlanksOf(b[1..], x);
    }
  }

  lemma {:induction false} TokenOf(t: string, x: string)
    requires (forall i :: 0 <= i < |t| ==> !IsSpace(t[i])) && (x == "" || IsSpace(x[0]))
    ensures Token(t + x) == t
  {
    if t == "" {
      assert t + x == x;
    } else {
      assert (t + x)[1..] == t[1..] + x;
      TokenOf(t[1..], x);
    }
  }

  /** Tabs, a number in hexadecimal digits, and then nothing or a space and anything. */
  ghost predicate IsEntry(ln: string, w: string, t: string, id: nat, x: string) {
    && ln == w + t + x && (forall i :: 0 <= i < |w| ==> w[i] == '\t') && IsNumeral(t, id)
    && (x == "" || x[0] in " \t\n\r")
  }

  lemma EntryIsRead(ln: string, w: string, t: string, id: nat, x: string)
    requires IsEntry(ln, w, t, id, x)
    ensures Skip(ln) == t + x && Token(t + x) == t && (t + x)[|t|..] == x
    ensures Hex(t) == if id < 0x1_0000_0000_0000_0000 then Some(id) else None
  {
    NumeralIsHex(t, id);
    assert HexDigit(t[0]).Some? && ln == w + (t + x);
    SkipOf(w, t + x);
    TokenOf(t, x);
  }

  /** After tabs and the digits of a number, blanks and a text: the text is the name of that number, and
      says nothing about any other. A number that does not fit 64 bits cannot be read. */
  lemma EntryNames(id: nat, w: string, t: string, number: nat, b: string, name: string)
    requires IsEntry(w + t + (b + name), w, t, number, b + name) && number < 0x1_0000_0000_0000_0000
    requires b != "" && AllBlank(b) && name != "" && !IsSpace(name[0])
    ensures IdName(id, w + t + (b + name)) == if number == id then Named(name) else Other
  {
    EntryIsRead(w + t + (b + name), w, t, number, b + name);
    SkipBlanksOf(b, name);
  }

  /** A number of 64 bits is no other number, whatever follows it. */
  lemma OtherEntries(id: nat, ln: string, w: string, t: string, number: nat, x: string)
    requires IsEntry(ln, w, t, number, x)
    ensures number < 0x1_0000_0000_0000_0000 && number != id ==> IdName(id, ln) == Other
    ensures number >= 0x1_0000_0000_0000_0000 ==> IdName(id, ln) == Unreadable
    ensures number == id && AllBlank(x) ==> IdName(id, ln) == Unreadable
  {
    EntryIsRead(ln, w, t, number, x);
    if AllBlank(x) {
      SkipBlanksOf(x, "");
      assert x + "" == x;
    }
  }

  /** Comments and empty lines are ignored; other lines are a vendor's, a device's or a subsystem's by
      the number of tabs in front, of which the third and later ones do not count. */
  lemma KindsOfLines(s: string)
    ensures KindOf("") == Ignored && KindOf("#" + s) == Ignored
    ensures s != "" && s[0] !in "#\t" ==> KindOf(s) == VendorLine
    ensures s == "" || s[0] != '\t' ==> KindOf("\t" + s) == DeviceLine
    ensures KindOf("\t\t" + s) == SubsystemLine
  {
  }

  /** A line that names the id. */
  ghost predicate IsNameLine(ln: string, w: string, id: nat, name: string) {
    && id < 0x1_0000_0000_0000_0000 && name != "" && !IsSpace(name[0])
    && exists t, b :: ln == w + t + (b + name) && IsEntry(ln, w, t, id, b + name) && b != "" && AllBlank(b)
  }

  /** A line about another id. */
  ghost predicate IsOtherLine(ln: string, w: string, id: nat) {
    exists t, number: nat, x :: IsEntry(ln, w, t, number, x) && number < 0x1_0000_0000_0000_0000 && number != id
  }

  /** The first vendor line that is about the vendor names it. */
  ghost predicate NamesVendor(lines: seq<string>, vendor: nat, name: string, i: nat) {
    && i < |lines| && IsNameLine(lines[i], "", vendor, name)
    && forall j :: 0 <= j < i ==> lines[j] == "" || lines[j][0] in "#\t" || IsOtherLine(lines[j], "", vendor)
  }

  /** Among the lines before the next vendor's, the first device line about the device names it. */
  ghost predicate NamesDevice(lines: seq<string>, device: nat, name: string, i: nat) {
    && i < |lines| && IsNameLine(lines[i], "\t", device, name)
    && forall j :: 0 <= j < i ==>
         lines[j] == "" || lines[j][0] == '#' || "\t\t" <= lines[j] || IsOtherLine(lines[j], "\t", device)
  }

  lemma NameLineIsRead(ln: string, w: string, id: nat, name: string)
    requires IsNameLine(ln, w, id, name) && w in {"", "\t"}
    ensures IdName(id, ln) == Named(name) && KindOf(ln) == if w == "" then VendorLine else DeviceLine
  {
    var t, b :| ln == w + t + (b + name) && IsEntry(ln, w, t, id, b + name) && b != "" && AllBlank(b);
    EntryNames(id, w, t, id, b, name);
    NumeralIsHex(t, id);
    assert HexDigit(t[0]).Some? && ln[|w|] == t[0];
  }

  lemma OtherLineIsRead(ln: string, w: string, id: nat)
    requires IsOtherLine(ln, w, id) && w in {"", "\t"}
    ensures IdName(id, ln) == Other && KindOf(ln) == if w == "" then VendorLine else DeviceLine
  {
    var t, number: nat, x :| IsEntry(ln, w, t, number, x) && number < 0x1_0000_0000_0000_0000 && number != id;
    OtherEntries(id, ln, w, t, number, x);
    NumeralIsHex(t, number);
    assert HexDigit(t[0]).Some? && ln[|w|] == t[0];
  }

  /** The scan finds the vendor at its first line. */
  lemma {:induction false} VendorIsFound(query: Query, lines: seq<string>, name: string, i: nat)
    requires NamesVendor(lines, query.vendor, name, i)
    ensures Scan(query, lines, false) == if query.ForVendor? then Name(name) else Scan(query, lines[i + 1..], true)
  {
    var ln, rest := lines[0], lines[1..];
    if i == 0 {
      NameLineIsRead(ln, "", query.vendor, name);
    } else {
      assert NamesVendor(rest, query.vendor, name, i - 1);
      VendorIsFound(query, rest, name, i - 1);
      assert rest[i..] == lines[i + 1..];
      if ln != "" && ln[0] !in "#\t" {
        OtherLineIsRead(ln, "", query.vendor);
      }
    }
  }

  /** And then the device at its first line. */
  lemma {:induction false} DeviceIsFound(query: Query, lines: seq<string>, name: string, i: nat)
    requires query.ForDevice? && NamesDevice(lines, query.device, name, i)
    ensures Scan(query, lines, true) == Name(name)
  {
    var ln, rest := lines[0], lines[1..];
    if i == 0 {
      NameLineIsRead(ln, "\t", query.device, name);
    } else {
      assert NamesDevice(rest, query.device, name, i - 1);
      DeviceIsFound(query, rest, name, i - 1);
      if ln != "" && ln[0] != '#' && !("\t\t" <= ln) {
        OtherLineIsRead(ln, "\t", query.device);
      }
    }
  }

  function HexChar(d: nat): char
    requires d < 16
  {
    if d < 10 then '0' + d as char else 'a' + (d - 10) as char
  }

  function Digits(n: nat): string {
    if n < 16 then [HexChar(n)] else Digits(n / 16) + [HexChar(n % 16)]
  }

  /** The name made up from an id */
  function BackupName(id: nat): string {
    "0x" + Digits(id)
  }

  /** What a query tells its caller, if it does not throw. */
  function TextOf(query: Query, answer: Answer): string
    requires answer == DeviceId ==> query.ForDevice?
    requires answer != Thrown
  {
    match answer
    case Name(name) => name
    case VendorId => BackupName(query.vendor)
    case DeviceId => BackupName(query.device)
  }

  predicate IsLower(c: char) {
    '0' <= c <= '9' || 'a' <= c <= 'f'
  }

  /** The number in lower-case hexadecimal digits, without leading zeros. */
  ghost predicate IsMadeUp(name: string, id: nat) {
    && |name| > 2 && name[..2] == "0x" && IsNumeral(name[2..], id)
    && (forall i :: 2 <= i < |name| ==> IsLower(name[i])) && (name[2] == '0' ==> |name| == 3)
  }

  lemma LowerDigit(c: char, d: nat)
    requires IsDigit(c, d) && IsLower(c)
    ensures c == HexChar(d)
  {
  }

  lemma {:induction false} LowerNumeral(t: string, id: nat)
    requires IsNumeral(t, id) && (forall i :: 0 <= i < |t| ==> IsLower(t[i])) && (t[0] == '0' ==> |t| == 1)
    ensures t == Digits(id)
  {
    var n, high, low := |t| - 1, id / 16, id % 16;
    var front := t[..n];
    assert t == front + [t[n]];
    LowerDigit(t[n], low);
    if n > 0 {
      LowerNumeral(front, high);
      assert front[0] == t[0] != '0' && Digits(0) == ['0'];
      assert high != 0;
    }
  }

  lemma MadeUpIsBackup(name: string, id: nat)
    requires IsMadeUp(name, id)
    ensures name == BackupName(id)
  {
    LowerNumeral(name[2..], id);
    assert name == name[..2] + name[2..];
  }

  /** No vendor line is about the vendor. */
  ghost predicate NoVendor(lines: seq<string>, vendor: nat) {
    forall j :: 0 <= j < |lines| ==> lines[j] == "" || lines[j][0] in "#\t" || IsOtherLine(lines[j], "", vendor)
  }

  /** No device line is about the device, up to line `j`, where another vendor follows or the lines end. */
  ghost predicate NoDevice(lines: seq<string>, device: nat, j: nat) {
    && j <= |lines|
    && (forall k :: 0 <= k < j ==>
          lines[k] == "" || lines[k][0] == '#' || "\t\t" <= lines[k] || IsOtherLine(lines[k], "\t", device))
    && (j < |lines| ==> lines[j] != "" && lines[j][0] !in "#\t")
  }

  lemma {:induction false} VendorIsNotFound(query: Query, lines: seq<string>)
    requires NoVendor(lines, query.vendor)
    ensures Scan(query, lines, false) == VendorId
  {
    if lines != [] {
      VendorIsNotFound(query, lines[1..]);
      if lines[0] != "" && lines[0][0] !in "#\t" {
        OtherLineIsRead(lines[0], "", query.vendor);
      }
    }
  }

  lemma {:induction false} DeviceIsNotFound(query: Query, lines: seq<string>, j: nat)
    requires query.ForDevice? && NoDevice(lines, query.device, j)
    ensures Scan(query, lines, true) == if j < |lines| then DeviceId else VendorId
  {
    if j > 0 {
      var ln, rest := lines[0], lines[1..];
      assert NoDevice(rest, query.device, j - 1);
      DeviceIsNotFound(query, rest, j - 1);
      if ln != "" && ln[0] != '#' && !("\t\t" <= ln) {
        OtherLineIsRead(ln, "\t", query.device);
      }
    }
  }

  /** The vendor's first line, and then the device's among the lines before the next vendor. */
  ghost predicate NamesDeviceOf(lines: seq<string>, vendor: nat, vendorName: string, i: nat,
                                device: nat, name: string, j: nat) {
    NamesVendor(lines, vendor, vendorName, i) && NamesDevice(lines[i + 1..], device, name, j)
  }

  /** The vendor's first line, and then no such device: the device's own number stands in for its name if
      another vendor follows, and else the vendor's. */
  ghost predicate ListsNoDevice(lines: seq<string>, vendor: nat, vendorName: string, i: nat,
                                device: nat, name: string, j: nat) {
    && NamesVendor(lines, vendor, vendorName, i) && NoDevice(lines[i + 1..], device, j)
    && IsMadeUp(name, if i + 1 + j < |lines| then device else vendor)
  }

  /** What lines tell about a vendor, or a device: the text after the blanks of the first line that is about
      it, or a number in its place. */
  ghost predicate Says(query: Query, lines: seq<string>, name: string) {
    || (NoVendor(lines, query.vendor) && IsMadeUp(name, query.vendor))
    || match query
       case ForVendor(vendor) => exists i: nat :: NamesVendor(lines, vendor, name, i)
       case ForDevice(vendor, device) =>
         || (exists vendorName, i: nat, j: nat :: NamesDeviceOf(lines, vendor, vendorName, i, device, name, j))
         || (exists vendorName, i: nat, j: nat :: ListsNoDevice(lines, vendor, vendorName, i, device, name, j))
  }

  /** What the lines say is what the scan answers. */
  lemma ScanAnswersWhatLinesSay(query: Query, lines: seq<string>, name: string)
    requires Says(query, lines, name)
    ensures var answer := Lookup(query, Tree(lines));
      answer != Thrown && (answer == DeviceId ==> query.ForDevice?) && TextOf(query, answer) == name
  {
    ScanIsLookup(query, lines);
    if NoVendor(lines, query.vendor) && IsMadeUp(name, query.vendor) {
      VendorIsNotFound(query, lines);
      MadeUpIsBackup(name, query.vendor);
    } else {
      match query
      case ForVendor(vendor) =>
        var i: nat :| NamesVendor(lines, vendor, name, i);
        VendorIsFound(query, lines, name, i);
      case ForDevice(vendor, device) =>
        if vendorName, i: nat, j: nat :| NamesDeviceOf(lines, vendor, vendorName, i, device, name, j) {
          VendorIsFound(query, lines, vendorName, i);
          DeviceIsFound(query, lines[i + 1..], name, j);
        } else {
          var vendorName, i: nat, j: nat :| ListsNoDevice(lines, vendor, vendorName, i, device, name, j);
          VendorIsFound(query, lines, vendorName, i);
          DeviceIsNotFound(query, lines[i + 1..], j);
          MadeUpIsBackup(name, if i + 1 + j < |lines| then device else vendor);
        }
    }
  }

  lemma VendorLine1002()
    ensures IsNameLine("1002 AMD", "", 0x1002, "AMD")
  {
    assert "1002"[..3] == "100" && "100"[..2] == "10" && "10"[..1] == "1";
    assert IsNumeral("1002", 0x1002);
    assert "1002 AMD" == "" + "1002" + (" " + "AMD") && AllBlank(" ");
  }

  lemma DeviceLine66AF()
    ensures IsNameLine("\t66af  Vega 20", "\t", 0x66AF, "Vega 20")
  {
    assert "66af"[..3] == "66a" && "66a"[..2] == "66" && "66"[..1] == "6";
    assert IsNumeral("66af", 0x66AF);
    assert "\t66af  Vega 20" == "\t" + "66af" + ("  " + "Vega 20") && AllBlank("  ");
  }

  /** A comment, a vendor and a device of it. */
  lemma VendorAndDevice()
    ensures var lines := ["# ids", "1002 AMD", "\t66af  Vega 20"];
      && Scan(ForVendor(0x1002), lines, false) == Name("AMD")
      && Scan(ForDevice(0x1002, 0x66AF), lines, false) == Name("Vega 20")
  {
    var lines := ["# ids", "1002 AMD", "\t66af  Vega 20"];
    VendorLine1002();
    DeviceLine66AF();
    assert NamesVendor(lines, 0x1002, "AMD", 1);
    VendorIsFound(ForVendor(0x1002), lines, "AMD", 1);
    VendorIsFound(ForDevice(0x1002, 0x66AF), lines, "AMD", 1);
    assert NamesDevice(lines[2..], 0x66AF, "Vega 20", 0);
    DeviceIsFound(ForDevice(0x1002, 0x66AF), lines[2..], "Vega 20", 0);
  }

  // ----- handing a name out -----

  lemma {:induction false} DigitsStandFor(n: nat)
    ensures AreDigits(Digits(n)) && Digits(n) != "" && HexFrom(Digits(n), 0) == n
  {
    if n < 16 {
      assert HexFrom([HexChar(n)], 0) == HexFrom([HexChar(n)][1..], n);
    } else {
      DigitsStandFor(n / 16);
      HexFromMore(Digits(n / 16), HexChar(n % 16), 0);
    }
  }

  /** An id can be read back from the name made up from it. */
  lemma BackupNameReadsBack(id: nat)
    requires id < UINT64
    ensures Hex(BackupName(id)) == Some(id)
  {
    DigitsStandFor(id);
    assert BackupName(id)[2..] == Digits(id);
  }

  datatype Status = Success | InsufficientSize | InvalidArguments | NoNumber | Exception

  /** The buffer holds as much of a text as it has room for, and a NUL. */
  predicate Holds(name: array<char>, text: string)
    requires name.Length > 0
    reads name
  {
    var ct := Min(name.Length - 1, |text|);
    name[..ct] == text[..ct] && name[ct] == '\0'
  }

  /** Copies a text: all of it, and then a NUL over the last character if there is no room. */
  method CopyName(text: string, name: array<char>) returns (status: Status)
    requires name.Length > 0
    modifies name
    ensures Holds(name, text)
    ensures status == if name.Length > |text| then Success else InsufficientSize
    ensures forall i :: Min(name.Length - 1, |text|) < i < name.Length ==> name[i] == old(name[i])
  {
    var ct := Min(name.Length, |text|);
    forall i | 0 <= i < ct {
      name[i] := text[i];
    }
    name[Min(name.Length - 1, ct)] := '\0';
    status := if name.Length < |text| + 1 then InsufficientSize else Success;
  }

  /** Puts the name of a vendor, or of a device, into a buffer. The numbers of the vendor and the
      device are read from the device, which may fail. */
  method GetDevNameFromId(isDevice: bool, vendorId: Option<nat>, deviceId: Option<nat>, files: seq<seq<string>>,
                          name: array<char>)
    returns (status: Status)
    modifies name
    ensures status == InvalidArguments <==> name.Length == 0
    ensures status == NoNumber <==> name.Length > 0 && (vendorId.None? || (isDevice && deviceId.None?))
    ensures status == NoNumber ==> name[..] == (old(name[..]))[0 := '\0']
    ensures name.Length > 0 && status != NoNumber ==>
      var query := if isDevice then ForDevice(vendorId.value, deviceId.value) else ForVendor(vendorId.value);
      var answer := Lookup(query, Tree(Lines(files)));
      if answer == Thrown then status == Exception && name[..] == (old(name[..]))[0 := '\0']
      else
        var text := TextOf(query, answer);
        && Holds(name, text)
        && status == if name.Length > |text| then Success else InsufficientSize
    ensures name.Length > 0 && status != NoNumber ==>
      var query := if isDevice then ForDevice(vendorId.value, deviceId.value) else ForVendor(vendorId.value);
      forall text {:trigger Says(query, Lines(files), text)} :: Says(query, Lines(files), text) ==>
        && name[..Min(name.Length - 1, |text|)] == text[..Min(name.Length - 1, |text|)]
        && name[Min(name.Length - 1, |text|)] == '\0'
        && status == if name.Length > |text| then Success else InsufficientSize
  {
    if name.Length == 0 {
      return InvalidArguments;
    }
    name[0] := '\0';
    if vendorId.None? || (isDevice && deviceId.None?) {
      return NoNumber;
    }
    var query := if isDevice then ForDevice(vendorId.value, deviceId.value) else ForVendor(vendorId.value);
    var answer := ScanFiles(query, files);
    forall text | Says(query, Lines(files), text)
      ensures answer != Thrown && TextOf(query, answer) == text
    {
      ScanAnswersWhatLinesSay(query, Lines(files), text);
    }
    if answer == Thrown {
      return Exception;
    }
    status := CopyName(TextOf(query, answer), name);
  }
}
