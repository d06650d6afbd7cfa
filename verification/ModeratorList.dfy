/** The moderator list of a channel, stored as comma-separated decimal GUIDs. */
module ModeratorList {
  import opened Decimal

  const UINT32: nat := 0x1_0000_0000

  /** Unicode white space, which `strings.TrimSpace` removes at both ends. */
  predicate IsSpace(c: char) {
    c in {' ', '\t', '\n', '\r', '\U{000B}', '\U{000C}', '\U{0085}', '\U{00A0}', '\U{1680}', '\U{2028}', '\U{2029}',
          '\U{202F}', '\U{205F}', '\U{3000}'} || '\U{2000}' <= c <= '\U{200A}'
  }

  function Trimmed(s: string): string {
    if s != [] && IsSpace(s[0]) then Trimmed(s[1..])
    else if s != [] && IsSpace(s[|s| - 1]) then Trimmed(s[..|s| - 1])
    else s
  }

  /** `strings.Join(parts, ",")`. */
  function Joined(parts: seq<string>): string {
    if parts == [] then "" else if |parts| == 1 then parts[0] else parts[0] + "," + Joined(parts[1..])
  }

  /** `strings.Split(s, ",")`: always at least one part. */
  function Split(s: string): (parts: seq<string>)
    ensures parts != []
  {
    if s == [] then [""]
    else
      var rest := Split(s[1..]);
      if s[0] == ',' then [""] + rest else [[s[0]] + rest[0]] + rest[1..]
  }

  function Printed(guids: seq<nat>): seq<string> {
    if guids == [] then [] else (if guids[0] == 0 then [] else [Digits(guids[0])]) + Printed(guids[1..])
  }

  /** What one part contributes: malformed parts and zeros are skipped. */
  function Parsed(part: string): seq<nat> {
    match Scanned(Trimmed(part), UINT32)
    case None => []
    case Some(guid) => if guid == 0 then [] else [guid]
  }

  function ParsedAll(parts: seq<string>): seq<nat> {
    if parts == [] then [] else Parsed(parts[0]) + ParsedAll(parts[1..])
  }

  /** The list that a stored string stands for; the empty string is no list. */
  function Loaded(s: string): seq<nat> {
    if s == "" then [] else ParsedAll(Split(s))
  }

  function NonZero(guids: seq<nat>): seq<nat> {
    if guids == [] then [] else (if guids[0] == 0 then [] else [guids[0]]) + NonZero(guids[1..])
  }

  // ------------------------------------------------------------ what trimming, splitting and parsing mean

  predicate AllSpace(s: string) {
    forall i :: 0 <= i < |s| ==> IsSpace(s[i])
  }

  /** What is left has no white space at either end. */
  predicate NoSpaceAtEnds(s: string) {
    s != "" ==> !IsSpace(s[0]) && !IsSpace(s[|s| - 1])
  }

  lemma SpaceAround(c: char, s: string)
    requires IsSpace(c) && AllSpace(s)
    ensures AllSpace([c] + s) && AllSpace(s + [c])
  {
    hide IsSpace;
  }

  /** Trimming removes white space at the ends, all of it and nothing else. */
  lemma {:induction false} TrimmedIs(s: string) returns (before: string, after: string)
    ensures s == before + Trimmed(s) + after
    ensures AllSpace(before) && AllSpace(after) && NoSpaceAtEnds(Trimmed(s))
    decreases |s|
  {
    hide IsSpace, AllSpace;
    if s != [] && IsSpace(s[0]) {
      before, after := TrimmedIs(s[1..]);
      SpaceAround(s[0], before);
      before := [s[0]] + before;
    } else if s != [] && IsSpace(s[|s| - 1]) {
      before, after := TrimmedIs(s[..|s| - 1]);
      SpaceAround(s[|s| - 1], after);
      after := after + [s[|s| - 1]];
    } else {
      before, after := "", "";
      NoSpaceInNothing();
    }
  }

  lemma NoSpaceInNothing()
    ensures AllSpace("")
  {
  }

  /** Splitting cuts at every comma: the parts hold none, and joined they are the string again. */
  lemma {:induction false} SplitIs(s: string)
    ensures Joined(Split(s)) == s && forall i :: 0 <= i < |Split(s)| ==> ',' !in Split(s)[i]
    decreases |s|
  {
    if s != [] {
      hide Joined;
      SplitIs(s[1..]);
      JoinedHead(s[0], Split(s[1..]));
      assert [s[0]] + s[1..] == s;
    } else {
      assert Joined([""]) == "";
    }
  }

  /** Joining with an empty part in front, or with a longer first part. */
  lemma JoinedHead(c: char, parts: seq<string>)
    requires parts != []
    ensures Joined([""] + parts) == "," + Joined(parts)
    ensures Joined([[c] + parts[0]] + parts[1..]) == [c] + Joined(parts)
  {
    var more, longer := [""] + parts, [[c] + parts[0]] + parts[1..];
    assert more[1..] == parts && longer[1..] == parts[1..];
    if |parts| > 1 {
      assert [c] + parts[0] + "," + Joined(parts[1..]) == [c] + (parts[0] + "," + Joined(parts[1..]));
    }
  }

  /** A part read as white space, a number in decimal, and anything that does not start with a digit. */
  ghost predicate Reads(part: string, before: string, digits: string, after: string, guid: nat) {
    && part == before + digits + after && AllSpace(before)
    && digits != "" && (forall i :: 0 <= i < |digits| ==> IsDigit(digits[i])) && Value(digits) == guid
    && (after == "" || !IsDigit(after[0]))
  }

  /** A part yields a moderator exactly if it reads as a number that is not zero and fits 32 bits. */
  lemma ParsedReads(part: string, guid: nat)
    requires Parsed(part) == [guid]
    ensures 0 < guid < 0x1_0000_0000 && exists before, digits, after :: Reads(part, before, digits, after, guid)
  {
    var t := Trimmed(part);
    var k := DigitRun(t);
    var b, a := TrimmedIs(part);
    assert t == t[..k] + t[k..];
    var after := t[k..] + a;
    if after != "" && k == |t| {
      assert after[0] == a[0] && IsSpace(a[0]);
      SpaceIsNoDigit(a[0]);
    }
    hide IsSpace;
    assert Reads(part, b, t[..k], after, guid);
  }

  lemma ReadsParsed(part: string, before: string, digits: string, after: string, guid: nat)
    requires Reads(part, before, digits, after, guid) && 0 < guid < 0x1_0000_0000
    ensures Parsed(part) == [guid]
  {
    var t := Trimmed(part);
    var b, a := TrimmedIs(part);
    DigitIsNoSpace(digits[0]);
    DigitIsNoSpace(digits[|digits| - 1]);
    FrontsAgree(part, b, t, a, before, digits + after);
    BacksAgree(t, a, digits, after);
    ScannedFront(digits, after[..|after| - |a|]);
  }

  lemma ScannedFront(digits: string, after: string)
    requires digits != "" && (forall i :: 0 <= i < |digits| ==> IsDigit(digits[i])) && Value(digits) < UINT32
    requires after == "" || !IsDigit(after[0])
    ensures Scanned(digits + after, UINT32).Some? && Scanned(digits + after, UINT32).value == Value(digits)
  {
    DigitRunIs(digits, after);
    assert (digits + after)[..|digits|] == digits;
  }

  /** The white space in front of something else is determined. */
  lemma FrontsAgree(part: string, b: string, t: string, a: string, before: string, rest: string)
    requires part == b + t + a == before + rest && AllSpace(b) && AllSpace(a) && AllSpace(before)
    requires NoSpaceAtEnds(t) && rest != "" && !IsSpace(rest[0])
    ensures t != "" && t + a == rest
  {
    hide IsSpace, AllSpace;
    LeadIs(before, rest);
    assert part == b + (t + a);
    if t == "" {
      assert part == b + a + "";
      SpaceJoined(b, a);
      LeadIs(b + a, "");
      assert false;
    }
    LeadIs(b, t + a);
    assert part[|b|..] == t + a && part[|before|..] == rest;
  }

  /** And cutting it off the end leaves what does not end in it. */
  lemma BacksAgree(t: string, a: string, front: string, after: string)
    requires t + a == front + after && t != "" && NoSpaceAtEnds(t) && AllSpace(a)
    requires front != "" && !IsSpace(front[|front| - 1])
    ensures |a| <= |after| && t == front + after[..|after| - |a|]
  {
    hide IsSpace, AllSpace;
    TrailIs(t, a);
    TrailAtMost(front, after);
    assert t == (t + a)[..|t|] == (front + after)[..|t|] == front + after[..|after| - |a|];
  }

  lemma ParsedExactly(part: string, guid: nat)
    ensures Parsed(part) == [guid]
            <==> 0 < guid < 0x1_0000_0000 && exists before, digits, after :: Reads(part, before, digits, after, guid)
  {
    hide Parsed, Reads;
    if Parsed(part) == [guid] {
      ParsedReads(part, guid);
    } else if before, digits, after :| 0 < guid < 0x1_0000_0000 && Reads(part, before, digits, after, guid) {
      ReadsParsed(part, before, digits, after, guid);
      assert false;
    }
  }

  lemma SpaceJoined(s: string, t: string)
    requires AllSpace(s) && AllSpace(t)
    ensures AllSpace(s + t)
  {
  }

  /** How much white space a string starts with. */
  function Lead(s: string): nat {
    if s != "" && IsSpace(s[0]) then 1 + Lead(s[1..]) else 0
  }

  lemma {:induction false} LeadIs(front: string, rest: string)
    requires AllSpace(front) && (rest == "" || !IsSpace(rest[0]))
    ensures Lead(front + rest) == |front|
    decreases |front|
  {
    hide IsSpace;
    if front == "" {
      assert front + rest == rest;
    } else {
      LeadIs(front[1..], rest);
      assert (front + rest)[1..] == front[1..] + rest;
    }
  }

  /** How much white space a string ends with. */
  function Trail(s: string): nat {
    if s != "" && IsSpace(s[|s| - 1]) then 1 + Trail(s[..|s| - 1]) else 0
  }

  lemma {:induction false} TrailIs(front: string, end: string)
    requires AllSpace(end) && (front == "" || !IsSpace(front[|front| - 1]))
    ensures Trail(front + end) == |end|
    decreases |end|
  {
    hide IsSpace;
    if end == "" {
      assert front + end == front;
    } else {
      var n := |end| - 1;
      TrailIs(front, end[..n]);
      assert (front + end)[..|front + end| - 1] == front + end[..n];
    }
  }

  lemma {:induction false} TrailAtMost(front: string, end: string)
    requires front != "" && !IsSpace(front[|front| - 1])
    ensures Trail(front + end) <= |end|
    decreases |end|
  {
    hide IsSpace;
    if end == "" {
      assert front + end == front;
    } else {
      var n := |end| - 1;
      TrailAtMost(front, end[..n]);
      assert (front + end)[..|front + end| - 1] == front + end[..n];
    }
  }

  lemma SpaceIsNoDigit(c: char)
    requires IsSpace(c)
    ensures !IsDigit(c)
  {
  }

  // ------------------------------------------------------------ the round trip

  lemma {:induction false} SplitPlain(s: string)
    requires ',' !in s
    ensures Split(s) == [s]
  {
    if s != [] {
      SplitPlain(s[1..]);
      assert s[0] != ',' && [s[0]] + s[1..] == s;
      assert Split(s[1..])[1..] == [];
    }
  }

  /** A part without commas is cut off at the first comma. */
  lemma {:induction false} SplitFirst(part: string, rest: string)
    requires ',' !in part
    ensures Split(part + "," + rest) == [part] + Split(rest)
  {
    var s := part + "," + rest;
    if part == [] {
      assert s[1..] == rest;
    } else {
      assert s[1..] == part[1..] + "," + rest;
      SplitFirst(part[1..], rest);
      assert Split(s[1..])[1..] == Split(rest);
      assert s[0] == part[0] != ',' && [s[0]] + part[1..] == part;
    }
  }

  lemma {:induction false} SplitJoined(parts: seq<string>)
    requires parts != [] && forall i :: 0 <= i < |parts| ==> ',' !in parts[i]
    ensures Split(Joined(parts)) == parts
  {
    if |parts| == 1 {
      SplitPlain(parts[0]);
    } else {
      SplitJoined(parts[1..]);
      SplitFirst(parts[0], Joined(parts[1..]));
    }
  }

  lemma DigitsStayTrimmed(s: string)
    requires forall i :: 0 <= i < |s| ==> IsDigit(s[i])
    ensures Trimmed(s) == s
  {
    if s != [] {
      DigitIsNoSpace(s[0]);
      DigitIsNoSpace(s[|s| - 1]);
    }
    hide IsSpace;
  }

  lemma DigitIsNoSpace(c: char)
    requires IsDigit(c)
    ensures !IsSpace(c)
  {
  }

  lemma ParsePrinted(guid: nat)
    requires 0 < guid < UINT32
    ensures Parsed(Digits(guid)) == [guid]
  {
    DigitsStayTrimmed(Digits(guid));
    ScanPrinted(guid, UINT32);
    hide Digits, Trimmed, Scanned;
  }

  lemma DigitsHaveNoComma(n: nat)
    ensures Digits(n) != "" && ',' !in Digits(n)
  {
  }

  lemma {:induction false} PrintedParts(guids: seq<nat>)
    requires forall i :: 0 <= i < |guids| ==> guids[i] < UINT32
    ensures forall i :: 0 <= i < |Printed(guids)| ==> Printed(guids)[i] != "" && ',' !in Printed(guids)[i]
    ensures ParsedAll(Printed(guids)) == NonZero(guids)
  {
    hide Parsed, Digits;
    if guids != [] {
      PrintedParts(guids[1..]);
      if guids[0] != 0 {
        ParsePrinted(guids[0]);
        DigitsHaveNoComma(guids[0]);
        assert Printed(guids) == [Digits(guids[0])] + Printed(guids[1..]);
        assert Printed(guids)[1..] == Printed(guids[1..]);
      } else {
        assert Printed(guids) == Printed(guids[1..]);
      }
    }
  }

  lemma JoinedNonEmpty(parts: seq<string>)
    requires parts != [] && parts[0] != ""
    ensures Joined(parts) != ""
  {
  }

  /** Storing a list and loading it gives the list without its zeros, in order. */
  lemma StoreThenLoad(guids: seq<nat>)
    requires forall i :: 0 <= i < |guids| ==> guids[i] < UINT32
    ensures Loaded(Joined(Printed(guids))) == NonZero(guids)
  {
    PrintedParts(guids);
    if Printed(guids) != [] {
      SplitJoined(Printed(guids));
      JoinedNonEmpty(Printed(guids));
    }
  }

  /** Whatever is stored, the moderators that are loaded are non-zero 32-bit numbers. */
  lemma {:induction false} LoadedAreValid(parts: seq<string>)
    ensures forall i :: 0 <= i < |ParsedAll(parts)| ==> 0 < ParsedAll(parts)[i] < UINT32
  {
    if parts != [] { LoadedAreValid(parts[1..]); }
  }

  lemma {:induction false} NonZeroUnchanged(guids: seq<nat>)
    requires forall i :: 0 <= i < |guids| ==> guids[i] != 0
    ensures NonZero(guids) == guids
  {
    if guids != [] { NonZeroUnchanged(guids[1..]); }
  }

  /** So loading any string and storing the result loads the same moderators again. */
  lemma LoadStoreLoad(s: string)
    ensures Loaded(Joined(Printed(Loaded(s)))) == Loaded(s)
  {
    LoadedAreValid(Split(s));
    StoreThenLoad(Loaded(s));
    NonZeroUnchanged(Loaded(s));
  }

  // ------------------------------------------------------------ the two loops

  /** The loop of `SetChannelRights`. */
  method PrintModerators(guids: seq<nat>) returns (stored: string)
    requires forall i :: 0 <= i < |guids| ==> guids[i] < UINT32
    ensures stored == Joined(Printed(guids)) && Loaded(stored) == NonZero(guids)
  {
    hide Joined, Loaded, Digits, NonZero;
    StoreThenLoad(guids);
    var parts: seq<string> := [];
    var i := 0;
    while i < |guids|
      invariant i <= |guids| && parts + Printed(guids[i..]) == Printed(guids)
    {
      if guids[i] != 0 {
        parts := parts + [Digits(guids[i])];
      }
      assert guids[i..][1..] == guids[i + 1..];
      i := i + 1;
    }
    assert parts == Printed(guids);
    stored := Joined(parts);
  }

  /** The loop of `GetChannelRights`. */
  method ParseModerators(stored: string) returns (guids: seq<nat>)
    ensures guids == Loaded(stored) && forall i :: 0 <= i < |guids| ==> 0 < guids[i] < UINT32
  {
    hide Scanned, Trimmed, Split, ParsedAll;
    guids := [];
    if stored != "" {
      var parts := Split(stored);
      LoadedAreValid(parts);
      var i := 0;
      while i < |parts|
        invariant i <= |parts| && guids + ParsedAll(parts[i..]) == ParsedAll(parts)
      {
        ParsedNext(parts, i);
        var scanned := Scanned(Trimmed(parts[i]), UINT32);
        if scanned.Some? && scanned.value != 0 {
          guids := guids + [scanned.value];
        }
        i := i + 1;
      }
      ParsedNone(parts[i..]);
    }
  }

  lemma ParsedNext(parts: seq<string>, i: nat)
    requires i < |parts|
    ensures ParsedAll(parts[i..]) == Parsed(parts[i]) + ParsedAll(parts[i + 1..])
  {
    assert parts[i..][1..] == parts[i + 1..];
  }

  lemma ParsedNone(parts: seq<string>)
    requires parts == []
    ensures ParsedAll(parts) == []
  {
  }
}
