/**
 The checksum manifest of a backup package (`sha256sum.txt`): how it is written and how it is read back.
 The digest itself is a parameter of the modules that hash something; here a digest is 64 hex digits.
 */
module Checksum {
  import opened Sorting

  datatype ParseResult = Parsed(entries: map<string, string>) | Malformed | LineTooLong

  const DIGEST_LENGTH: nat := 64
  // A scanner token, its newline included, must fit in a 64 KiB buffer.
  const MAX_LINE: nat := 65536

  // ---- hex digests ----

  predicate HexDigit(c: char) {
    '0' <= c <= '9' || 'a' <= c <= 'f' || 'A' <= c <= 'F'
  }

  function LowerChar(c: char): char {
    if 'A' <= c <= 'Z' then ((c as int) + 32) as char else c
  }

  function Lower(s: string): (r: string)
    ensures |r| == |s|
    ensures forall i :: 0 <= i < |s| ==> r[i] == LowerChar(s[i])
  {
    if s == "" then "" else [LowerChar(s[0])] + Lower(s[1..])
  }

  /** What hashing produces: 64 lower-case hex digits. */
  predicate IsDigest(s: string) {
    |s| == DIGEST_LENGTH && forall c :: c in s ==> HexDigit(c) && LowerChar(c) == c
  }

  /** strings.EqualFold on ASCII text. */
  predicate EqualFold(a: string, b: string) {
    Lower(a) == Lower(b)
  }

  lemma LowerOfDigest(s: string)
    requires IsDigest(s)
    ensures Lower(s) == s
  {
    forall i | 0 <= i < |s| ensures Lower(s)[i] == s[i] {
      assert s[i] in s;
    }
  }

  /** On digests the case-insensitive comparison is equality. */
  lemma EqualFoldOnDigests(a: string, b: string)
    requires IsDigest(a) && IsDigest(b)
    ensures EqualFold(a, b) <==> a == b
  {
    LowerOfDigest(a);
    LowerOfDigest(b);
  }

  // ---- writing ----

  function Line(name: string, sum: string): string {
    sum + "  " + name
  }

  function Render(entries: map<string, string>, names: seq<string>): string
    requires forall n :: n in names ==> n in entries
  {
    if names == [] then ""
    else Line(names[0], entries[names[0]]) + "\n" + Render(entries, names[1..])
  }

  lemma {:induction false} RenderAppend(entries: map<string, string>, names: seq<string>, name: string)
    requires name in entries && forall n :: n in names ==> n in entries
    ensures Render(entries, names + [name]) == Render(entries, names) + Line(name, entries[name]) + "\n"
  {
    if names == [] {
      assert names + [name] == [name];
      assert [name][1..] == [];
    } else {
      assert (names + [name])[1..] == names[1..] + [name];
      RenderAppend(entries, names[1..], name);
    }
  }

  /** The text is a function of the entries alone: any two enumerations sort to the same list. */
  lemma EnumerationsSortAlike(keys: set<string>, a: seq<string>, b: seq<string>)
    requires Enumerates(a, keys) && Enumerates(b, keys)
    ensures Sort(a, StringLess) == Sort(b, StringLess)
    ensures Enumerates(Sort(a, StringLess), keys)
  {
    StringOrder();
    StringsNeverTie(a);
    DistinctPermutation(a, b);
    SortIgnoresInputOrder(a, b, StringLess);
    SortFacts(a, StringLess);
    PermutationKeepsDistinct(a, Sort(a, StringLess));
    SameElements(a, Sort(a, StringLess));
  }

  /** Insertion sort in place. The result is the specification sort: ordered, and a permutation (SortFacts). */
  method SortStrings(values: array<string>)
    modifies values
    ensures values[..] == Sort(old(values[..]), StringLess)
  {
    ghost var was := values[..];
    var i := 0;
    assert was[..0] == [];
    while i < values.Length
      invariant 0 <= i <= values.Length
      invariant values[..i] == Sort(was[..i], StringLess)
      invariant values[i..] == was[i..]
    {
      ghost var sorted := values[..i];
      ghost var x := values[i];
      assert x == was[i] by { assert values[i..][0] == was[i..][0]; }
      SiftDown(values, i);
      assert was[..i + 1][..i] == was[..i];
      i := i + 1;
    }
    assert values[..] == values[..values.Length];
    assert was == was[..values.Length];
  }

  /** The inner loop: element `i` travels left past every greater element. */
  method SiftDown(values: array<string>, i: nat)
    requires i < values.Length
    modifies values
    ensures values[..i + 1] == Insert(old(values[i]), old(values[..i]), StringLess)
    ensures values[i + 1..] == old(values[i + 1..])
  {
    ghost var s, x, tail := values[..i], values[i], values[i + 1..];
    var j := i;
    assert s[..i] == s && s[i..] == [];
    while j > 0 && StringLess(values[j], values[j - 1])
      invariant 0 <= j <= i
      invariant values[j] == x
      invariant values[..j] == s[..j]
      invariant values[j + 1..i + 1] == s[j..]
      invariant values[i + 1..] == tail
      invariant Insert(x, s, StringLess) == Insert(x, s[..j], StringLess) + s[j..]
    {
      assert values[j - 1] == values[..j][j - 1];
      InsertPast(x, s, j, StringLess);
      SwapLeft(values, i, j, s);
      j := j - 1;
    }
    assert j > 0 ==> values[j - 1] == values[..j][j - 1];
    assert values[..i + 1] == values[..j] + [values[j]] + values[j + 1..i + 1];
  }

  /** Exchange neighbours `j - 1` and `j` of `s` with the travelling element at `j`. */
  method SwapLeft(values: array<string>, i: nat, j: nat, ghost s: seq<string>)
    requires 0 < j <= i < values.Length && |s| == i
    requires values[..j] == s[..j] && values[j + 1..i + 1] == s[j..]
    modifies values
    ensures values[j - 1] == old(values[j])
    ensures values[..j - 1] == s[..j - 1] && values[j..i + 1] == s[j - 1..]
    ensures values[i + 1..] == old(values[i + 1..])
  {
    assert values[j - 1] == values[..j][j - 1] == s[j - 1];
    assert s[j - 1..] == [s[j - 1]] + s[j..];
    ghost var front := values[..j];
    values[j], values[j - 1] := values[j - 1], values[j];
    assert values[..j - 1] == front[..j - 1];
    assert values[j..i + 1] == [values[j]] + values[j + 1..i + 1];
  }

  /** The names, in the order the map delivers them. */
  method NamesOf(entries: map<string, string>) returns (names: seq<string>)
    ensures Enumerates(names, entries.Keys)
  {
    names := [];
    var todo := entries.Keys;
    while todo != {}
      invariant todo <= entries.Keys
      invariant Enumerates(names, entries.Keys - todo)
      decreases todo
    {
      var name :| name in todo;
      names := names + [name];
      todo := todo - {name};
    }
    assert entries.Keys - todo == entries.Keys;
  }

  method WriteLines(entries: map<string, string>, values: array<string>) returns (text: string)
    requires forall n :: n in values[..] ==> n in entries
    ensures text == Render(entries, values[..])
  {
    ghost var names := values[..];
    text := "";
    var i := 0;
    while i < values.Length
      invariant 0 <= i <= values.Length
      invariant text == Render(entries, names[..i])
    {
      assert names[i] in names;
      RenderAppend(entries, names[..i], names[i]);
      assert names[..i + 1] == names[..i] + [names[i]];
      text := text + Line(values[i], entries[values[i]]) + "\n";
      i := i + 1;
    }
    assert names[..i] == names;
  }

  /** Manifest: whatever order the map is iterated in, the text lists the sorted names. */
  method Manifest(entries: map<string, string>) returns (text: string)
    ensures forall order :: Enumerates(order, entries.Keys) ==>
      (forall n :: n in Sort(order, StringLess) ==> n in entries)
      && text == Render(entries, Sort(order, StringLess))
    ensures exists order :: Enumerates(order, entries.Keys)
  {
    var names := NamesOf(entries);
    var values := new string[|names|](k requires 0 <= k < |names| => names[k]);
    assert values[..] == names;
    SortStrings(values);
    EnumerationsSortAlike(entries.Keys, names, names);
    text := WriteLines(entries, values);
    forall order | Enumerates(order, entries.Keys)
      ensures (forall n :: n in Sort(order, StringLess) ==> n in entries)
        && text == Render(entries, Sort(order, StringLess))
    {
      EnumerationsSortAlike(entries.Keys, names, order);
    }
  }

  // ---- reading ----

  /** Index of the first newline, or the length of the text. */
  function LineEnd(text: string): (n: nat)
    ensures n <= |text|
    ensures '\n' !in text[..n]
    ensures n < |text| ==> text[n] == '\n'
  {
    if text == "" || text[0] == '\n' then 0 else 1 + LineEnd(text[1..])
  }

  function DropCarriageReturn(line: string): string {
    if line != "" && line[|line| - 1] == '\r' then line[..|line| - 1] else line
  }

  /** Index of the first double space, or the length of the line when there is none. */
  function FirstGap(line: string): (n: nat)
    ensures n <= |line|
  {
    if |line| < 2 then |line|
    else if line[0] == ' ' && line[1] == ' ' then 0
    else 1 + FirstGap(line[1..])
  }

  datatype LineResult = Entry(name: string, sum: string) | BadLine

  function ParseLine(line: string): LineResult {
    var gap := FirstGap(line);
    if gap + 2 > |line| then BadLine
    else
      var sum, name := line[..gap], line[gap + 2..];
      if |sum| != DIGEST_LENGTH || name == "" || exists c :: c in sum && !HexDigit(c) then BadLine
      else Entry(name, Lower(sum))
  }

  function Rest(text: string): string
    requires text != ""
  {
    if LineEnd(text) < |text| then text[LineEnd(text) + 1..] else ""
  }

  function ParseFrom(text: string, entries: map<string, string>): ParseResult
    decreases |text|
  {
    if text == "" then Parsed(entries)
    else if LineEnd(text) >= MAX_LINE then LineTooLong
    else
      match ParseLine(DropCarriageReturn(text[..LineEnd(text)]))
      case BadLine => Malformed
      case Entry(name, sum) => ParseFrom(Rest(text), entries[name := sum])
  }

  /** ParseManifest: the scanner loop, one line at a time. */
  method ParseManifest(text: string) returns (result: ParseResult)
    ensures result == ParseFrom(text, map[])
  {
    var entries: map<string, string> := map[];
    var rest := text;
    while rest != ""
      invariant ParseFrom(text, map[]) == ParseFrom(rest, entries)
      decreases |rest|
    {
      var end := LineEnd(rest);
      if end >= MAX_LINE {
        return LineTooLong;
      }
      var line := ParseLine(DropCarriageReturn(rest[..end]));
      if line.BadLine? {
        return Malformed;
      }
      entries := entries[line.name := line.sum];
      rest := Rest(rest);
    }
    return Parsed(entries);
  }

  // ---- round trip ----

  /** The entries a manifest can carry. */
  ghost predicate WellFormedEntry(name: string, sum: string) {
    && name != "" && '\n' !in name && name[|name| - 1] != '\r'
    && IsDigest(sum)
    && |Line(name, sum)| < MAX_LINE
  }

  lemma {:induction false} GapAfterDigest(sum: string, name: string)
    requires ' ' !in sum
    ensures FirstGap(sum + "  " + name) == |sum|
  {
    var line := sum + "  " + name;
    if sum != "" {
      assert line[0] == sum[0] && sum[0] in sum;
      assert line[1..] == sum[1..] + "  " + name;
      GapAfterDigest(sum[1..], name);
    }
  }

  lemma ParseLineOfLine(name: string, sum: string)
    requires IsDigest(sum) && name != ""
    ensures ParseLine(Line(name, sum)) == Entry(name, sum)
  {
    GapAfterDigest(sum, name);
    var line := Line(name, sum);
    assert line[..|sum|] == sum && line[|sum| + 2..] == name;
    LowerOfDigest(sum);
  }

  lemma {:induction false} LineEndOf(line: string, rest: string)
    requires '\n' !in line
    ensures LineEnd(line + "\n" + rest) == |line|
  {
    var text := line + "\n" + rest;
    if line != "" {
      assert text[0] == line[0] && line[0] in line;
      assert text[1..] == line[1..] + "\n" + rest;
      LineEndOf(line[1..], rest);
    }
  }

  /** The first line of a text, and what follows it. */
  lemma FirstLine(line: string, rest: string)
    requires '\n' !in line
    ensures var text := line + "\n" + rest;
      && LineEnd(text) == |line| < |text| && text[..LineEnd(text)] == line && Rest(text) == rest
  {
    var text := line + "\n" + rest;
    LineEndOf(line, rest);
    assert text[..|line|] == line && text[|line| + 1..] == rest;
  }

  lemma LineHasNoNewline(name: string, sum: string)
    requires IsDigest(sum) && '\n' !in name && name != ""
    ensures '\n' !in Line(name, sum) && Line(name, sum)[|Line(name, sum)| - 1] == name[|name| - 1]
  {
    assert forall c :: c in Line(name, sum) ==> c in sum || c == ' ' || c in name;
  }

  /** The parser takes a text line by line. */
  lemma ParseStep(line: string, rest: string, entries: map<string, string>)
    requires '\n' !in line && |line| < MAX_LINE && (line != "" ==> line[|line| - 1] != '\r')
    ensures ParseFrom(line + "\n" + rest, entries) ==
      match ParseLine(line)
      case BadLine => Malformed
      case Entry(name, sum) => ParseFrom(rest, entries[name := sum])
  {
    FirstLine(line, rest);
  }

  lemma ParseOneLine(name: string, sum: string, rest: string, entries: map<string, string>)
    requires WellFormedEntry(name, sum)
    ensures ParseFrom(Line(name, sum) + "\n" + rest, entries) == ParseFrom(rest, entries[name := sum])
  {
    LineHasNoNewline(name, sum);
    ParseStep(Line(name, sum), rest, entries);
    ParseLineOfLine(name, sum);
  }

  function Restrict(entries: map<string, string>, names: seq<string>): map<string, string>
    requires forall n :: n in names ==> n in entries
  {
    map n | n in names :: entries[n]
  }

  lemma RestrictFirst(entries: map<string, string>, names: seq<string>, acc: map<string, string>)
    requires names != [] && forall n :: n in names ==> n in entries
    ensures acc[names[0] := entries[names[0]]] + Restrict(entries, names[1..]) == acc + Restrict(entries, names)
  {
    assert forall n :: n in names <==> n == names[0] || n in names[1..];
  }

  lemma {:induction false} ParseRendered(entries: map<string, string>, names: seq<string>, acc: map<string, string>)
    requires forall n :: n in names ==> n in entries && WellFormedEntry(n, entries[n])
    ensures ParseFrom(Render(entries, names), acc) == Parsed(acc + Restrict(entries, names))
  {
    if names == [] {
      assert acc + Restrict(entries, names) == acc;
    } else {
      var name := names[0];
      ParseOneLine(name, entries[name], Render(entries, names[1..]), acc);
      assert Render(entries, names) == Line(name, entries[name]) + "\n" + Render(entries, names[1..]);
      ParseRendered(entries, names[1..], acc[name := entries[name]]);
      RestrictFirst(entries, names, acc);
    }
  }

  /** Reading a manifest back returns exactly the entries it was written from. */
  lemma RoundTrip(entries: map<string, string>, order: seq<string>)
    requires Enumerates(order, entries.Keys)
    requires forall n :: n in entries ==> WellFormedEntry(n, entries[n])
    ensures forall n :: n in Sort(order, StringLess) ==> n in entries
    ensures ParseFrom(Render(entries, Sort(order, StringLess)), map[]) == Parsed(entries)
  {
    EnumerationsSortAlike(entries.Keys, order, order);
    var names := Sort(order, StringLess);
    ParseRendered(entries, names, map[]);
    assert map[] + Restrict(entries, names) == entries;
  }

  // ---- and only those ----

  /** What every entry that comes out of the parser looks like. */
  ghost predicate ParsedShape(name: string, sum: string) {
    name != "" && '\n' !in name && IsDigest(sum)
  }

  lemma {:induction false} LowerIsDigest(sum: string)
    requires |sum| == DIGEST_LENGTH && forall c :: c in sum ==> HexDigit(c)
    ensures IsDigest(Lower(sum))
  {
    forall c | c in Lower(sum) ensures HexDigit(c) && LowerChar(c) == c {
      var i :| 0 <= i < |sum| && Lower(sum)[i] == c;
      assert sum[i] in sum;
    }
  }

  lemma {:induction false} ParserOutput(text: string, acc: map<string, string>, result: map<string, string>)
    requires ParseFrom(text, acc) == Parsed(result)
    requires forall n :: n in acc ==> ParsedShape(n, acc[n])
    ensures forall n :: n in result ==> ParsedShape(n, result[n])
    decreases |text|
  {
    if text != "" {
      var raw := text[..LineEnd(text)];
      var line := DropCarriageReturn(raw);
      assert forall c :: c in line ==> c in raw;
      var gap := FirstGap(line);
      var entry := ParseLine(line);
      assert forall c :: c in line[gap + 2..] ==> c in line;
      LowerIsDigest(line[..gap]);
      ParserOutput(Rest(text), acc[entry.name := entry.sum], result);
    }
  }

  lemma ParseShapedLine(name: string, sum: string, rest: string, acc: map<string, string>)
    requires ParsedShape(name, sum)
    ensures ParseFrom(Line(name, sum) + "\n" + rest, acc).Parsed? ==>
      && |Line(name, sum)| < MAX_LINE
      && DropCarriageReturn(name) != ""
      && ParseFrom(Line(name, sum) + "\n" + rest, acc) == ParseFrom(rest, acc[DropCarriageReturn(name) := sum])
  {
    var line := Line(name, sum);
    LineHasNoNewline(name, sum);
    FirstLine(line, rest);
    var short := DropCarriageReturn(name);
    assert DropCarriageReturn(line) == sum + "  " + short;
    if short == "" {
      GapAfterDigest(sum, short);
    } else {
      ParseLineOfLine(short, sum);
    }
  }

  lemma {:induction false} StrippedNames(entries: map<string, string>, names: seq<string>, acc: map<string, string>,
                                         result: map<string, string>)
    requires forall n :: n in names ==> n in entries && ParsedShape(n, entries[n])
    requires ParseFrom(Render(entries, names), acc) == Parsed(result)
    ensures forall n :: n in names ==> |Line(n, entries[n])| < MAX_LINE
    ensures forall n :: n in result ==> n in acc || exists m :: m in names && DropCarriageReturn(m) == n
  {
    if names != [] {
      var name := names[0];
      var rest := Render(entries, names[1..]);
      ParseShapedLine(name, entries[name], rest, acc);
      assert Render(entries, names) == Line(name, entries[name]) + "\n" + rest;
      StrippedNames(entries, names[1..], acc[DropCarriageReturn(name) := entries[name]], result);
      forall n | n in result && n !in acc ensures exists m :: m in names && DropCarriageReturn(m) == n {
        if n == DropCarriageReturn(name) {
          assert name in names;
        } else {
          var m :| m in names[1..] && DropCarriageReturn(m) == n;
          assert m in names;
        }
      }
    }
  }

  /** Is `name` what is left of some listed name without its carriage return? */
  ghost predicate Stripped(names: seq<string>, name: string) {
    exists m :: m in names && DropCarriageReturn(m) == name
  }

  /** A name that ends in a carriage return would need an even longer one to stand in for it. */
  lemma {:induction false} NoTrailingReturn(names: seq<string>, name: string, bound: nat)
    requires name in names && forall n :: n in names ==> n != "" && |n| <= bound
    requires forall n {:trigger Stripped(names, n)} :: n in names ==> Stripped(names, n)
    ensures name[|name| - 1] != '\r'
    decreases bound - |name|
  {
    if name[|name| - 1] == '\r' {
      assert Stripped(names, name);
      var m :| m in names && DropCarriageReturn(m) == name;
      assert |m| == |name| + 1;
      NoTrailingReturn(names, m, bound);
    }
  }

  lemma ParsedNamesKeepTheirEnd(entries: map<string, string>, names: seq<string>)
    requires forall n :: n in names <==> n in entries
    requires forall n :: n in entries ==> ParsedShape(n, entries[n]) && |Line(n, entries[n])| < MAX_LINE
    requires forall n {:trigger Stripped(names, n)} :: n in entries ==> Stripped(names, n)
    ensures forall n :: n in entries ==> WellFormedEntry(n, entries[n])
  {
    forall n | n in entries ensures WellFormedEntry(n, entries[n]) {
      NoTrailingReturn(names, n, MAX_LINE);
    }
  }

  lemma RoundTripOnly(entries: map<string, string>, names: seq<string>)
    requires forall n :: n in names <==> n in entries
    requires ParseFrom(Render(entries, names), map[]) == Parsed(entries)
    ensures forall n :: n in entries ==> WellFormedEntry(n, entries[n])
  {
    ParserOutput(Render(entries, names), map[], entries);
    StrippedNames(entries, names, map[], entries);
    ParsedNamesKeepTheirEnd(entries, names);
  }

  /** Reading back what Manifest wrote returns the same map exactly when every entry is well formed. */
  lemma RoundTripIff(entries: map<string, string>, order: seq<string>)
    requires Enumerates(order, entries.Keys)
    ensures forall n :: n in Sort(order, StringLess) ==> n in entries
    ensures ParseFrom(Render(entries, Sort(order, StringLess)), map[]) == Parsed(entries)
      <==> forall n :: n in entries ==> WellFormedEntry(n, entries[n])
  {
    EnumerationsSortAlike(entries.Keys, order, order);
    if ParseFrom(Render(entries, Sort(order, StringLess)), map[]) == Parsed(entries) {
      RoundTripOnly(entries, Sort(order, StringLess));
    }
    if forall n :: n in entries ==> WellFormedEntry(n, entries[n]) {
      RoundTrip(entries, order);
    }
  }

  /** A file name may end in a carriage return; its entry does not come back. */
  lemma CarriageReturnIsLost(sum: string)
    ensures var entries := map["a\r" := sum];
      && (forall n :: n in Sort(["a\r"], StringLess) ==> n in entries)
      && ParseFrom(Render(entries, Sort(["a\r"], StringLess)), map[]) != Parsed(entries)
  {
    var entries := map["a\r" := sum];
    assert Enumerates(["a\r"], entries.Keys);
    assert !WellFormedEntry("a\r", entries["a\r"]);
    RoundTripIff(entries, ["a\r"]);
  }

  // ---- what a line must look like ----

  /** 64 hex digits of either case, two spaces, and a name. */
  ghost predicate Reads(line: string, hex: string, name: string) {
    && line == hex + "  " + name && name != ""
    && |hex| == 64 && forall c :: c in hex ==> HexDigit(c)
  }

  lemma {:induction false} GapIsGap(line: string)
    ensures var n := FirstGap(line); n + 2 <= |line| ==> line[n..n + 2] == "  "
  {
    if |line| >= 2 && !(line[0] == ' ' && line[1] == ' ') {
      GapIsGap(line[1..]);
    }
  }

  lemma ParseLineIff(line: string)
    ensures ParseLine(line).BadLine? <==> !exists hex, name :: Reads(line, hex, name)
    ensures forall hex, name :: Reads(line, hex, name) ==> ParseLine(line) == Entry(name, Lower(hex))
  {
    forall hex, name | Reads(line, hex, name) ensures ParseLine(line) == Entry(name, Lower(hex)) {
      assert ' ' !in hex;
      GapAfterDigest(hex, name);
      assert line[..|hex|] == hex && line[|hex| + 2..] == name;
    }
    if ParseLine(line).Entry? {
      GapIsGap(line);
      var gap := FirstGap(line);
      assert line == line[..gap] + line[gap..gap + 2] + line[gap + 2..];
      assert Reads(line, line[..gap], line[gap + 2..]);
    }
  }

  /** A manifest is refused at the first line that does not look so, and a line that does adds its entry. */
  lemma FirstLineDecides(line: string, rest: string, entries: map<string, string>)
    requires '\n' !in line && |line| < MAX_LINE && (line != "" ==> line[|line| - 1] != '\r')
    ensures (forall hex, name :: !Reads(line, hex, name)) ==> ParseFrom(line + "\n" + rest, entries) == Malformed
    ensures forall hex, name :: Reads(line, hex, name) ==>
      ParseFrom(line + "\n" + rest, entries) == ParseFrom(rest, entries[name := Lower(hex)])
  {
    ParseStep(line, rest, entries);
    ParseLineIff(line);
  }
}
