/**
  The state string of a contact way: store:S:manager:M:guide:G:bind:B:v1, and the
  parser that finds the binding id in it again.
 */
module StateCodec {
  import opened Basics

  function Replace(s: string, old_: char, new_: char): string {
    seq(|s|, i requires 0 <= i < |s| => if s[i] == old_ then new_ else s[i])
  }

  function Sanitize(s: string): string {
    Replace(Replace(Trim(s), ':', '_'), ' ', '_')
  }

  function Split(s: string): (parts: seq<string>)
    ensures parts != []
  {
    if s == "" then [""]
    else
      var rest := Split(s[1..]);
      if s[0] == ':' then [""] + rest else [[s[0]] + rest[0]] + rest[1..]
  }

  function BuildPrefix(storeCode: string, manager: string): string {
    "store:" + Sanitize(storeCode) + ":manager:" + Sanitize(manager)
  }

  function Build(storeCode: string, manager: string, guide: string, binding: string): string {
    BuildPrefix(storeCode, manager) + ":guide:" + Sanitize(guide) + ":bind:" + Sanitize(binding) + ":v1"
  }

  function ParseParts(parts: seq<string>): string {
    if |parts| < 2 then "" else if parts[0] == "bind" then Trim(parts[1]) else ParseParts(parts[1..])
  }

  function Parse(state: string): string {
    ParseParts(Split(state))
  }

  // ---------------------------------------------------------------- splitting at the first colon

  predicate NoColon(s: string) {
    ':' !in s
  }

  lemma {:induction false} SplitNoColon(s: string)
    requires NoColon(s)
    ensures Split(s) == [s]
  {
    if s != "" {
      SplitNoColon(s[1..]);
      assert [s[0]] + s[1..] == s;
    }
  }

  function JoinWithColons(parts: seq<string>): string
    requires parts != []
  {
    if |parts| == 1 then parts[0] else parts[0] + ":" + JoinWithColons(parts[1..])
  }

  /** Splitting cuts at every colon and loses nothing. */
  lemma {:induction false} SplitMeaning(s: string)
    ensures forall i :: 0 <= i < |Split(s)| ==> NoColon(Split(s)[i])
    ensures JoinWithColons(Split(s)) == s
  {
    if s != "" {
      var rest := Split(s[1..]);
      SplitMeaning(s[1..]);
      if s[0] == ':' {
        assert ([""] + rest)[1..] == rest;
        assert s == "" + ":" + s[1..];
      } else {
        JoinPrepends(s[0], rest);
        assert s == [s[0]] + s[1..];
      }
    }
  }

  lemma JoinPrepends(c: char, rest: seq<string>)
    requires rest != []
    ensures JoinWithColons([[c] + rest[0]] + rest[1..]) == [c] + JoinWithColons(rest)
  {
    var parts := [[c] + rest[0]] + rest[1..];
    assert parts[1..] == rest[1..];
    if |rest| > 1 {
      assert parts[0] + ":" + JoinWithColons(rest[1..]) == [c] + (rest[0] + ":" + JoinWithColons(rest[1..]));
    }
  }

  lemma {:induction false} SplitAtColon(s: string, rest: string)
    requires NoColon(s)
    ensures Split(s + ":" + rest) == [s] + Split(rest)
  {
    if s == "" {
      assert (s + ":" + rest)[1..] == rest;
    } else {
      assert (s + ":" + rest)[1..] == s[1..] + ":" + rest;
      SplitAtColon(s[1..], rest);
      assert [s[0]] + s[1..] == s;
    }
  }

  // ---------------------------------------------------------------- sanitising

  predicate Trimmed(s: string) {
    s == "" || (!IsSpace(s[0]) && !IsSpace(s[|s| - 1]))
  }

  lemma {:induction false} TrimLeftStarts(s: string)
    ensures TrimLeft(s) == "" || !IsSpace(TrimLeft(s)[0])
  {
    if s != "" && IsSpace(s[0]) {
      TrimLeftStarts(s[1..]);
    }
  }

  lemma {:induction false} TrimRightEnds(s: string)
    ensures TrimRight(s) <= s
    ensures TrimRight(s) == "" || !IsSpace(TrimRight(s)[|TrimRight(s)| - 1])
  {
    if s != "" && IsSpace(s[|s| - 1]) {
      TrimRightEnds(s[..|s| - 1]);
    }
  }

  lemma TrimIsTrimmed(s: string)
    ensures Trimmed(Trim(s))
  {
    TrimLeftStarts(s);
    TrimRightEnds(TrimLeft(s));
  }

  lemma TrimmedStays(s: string)
    requires Trimmed(s)
    ensures Trim(s) == s
  {
  }

  predicate AllSpace(s: string) {
    forall i :: 0 <= i < |s| ==> IsSpace(s[i])
  }

  lemma {:induction false} TrimLeftDrops(s: string) returns (head: string)
    ensures AllSpace(head) && s == head + TrimLeft(s)
  {
    head := "";
    if s != "" && IsSpace(s[0]) {
      var rest := TrimLeftDrops(s[1..]);
      head := [s[0]] + rest;
    }
  }

  lemma {:induction false} TrimRightDrops(s: string) returns (tail: string)
    ensures AllSpace(tail) && s == TrimRight(s) + tail
  {
    tail := "";
    if s != "" && IsSpace(s[|s| - 1]) {
      var rest := TrimRightDrops(s[..|s| - 1]);
      tail := rest + [s[|s| - 1]];
    }
  }

  /** Trimming takes whitespace from both ends, all of it and nothing else. */
  lemma TrimDropsOuterSpace(s: string) returns (head: string, tail: string)
    ensures AllSpace(head) && AllSpace(tail) && s == head + Trim(s) + tail && Trimmed(Trim(s))
  {
    head := TrimLeftDrops(s);
    tail := TrimRightDrops(TrimLeft(s));
    TrimIsTrimmed(s);
    ConcatAssoc(head, Trim(s), tail);
  }

  /** Sanitising trims, and puts an underscore for each colon and each space that is left. */
  lemma SanitizeMeaning(s: string)
    ensures |Sanitize(s)| == |Trim(s)|
    ensures forall i :: 0 <= i < |Trim(s)| ==>
              Sanitize(s)[i] == if Trim(s)[i] == ':' || Trim(s)[i] == ' ' then '_' else Trim(s)[i]
  {
  }

  /** A sanitised part has no outer whitespace, colon or space, so sanitising it again changes nothing. */
  lemma SanitizedIsClean(s: string)
    ensures NoColon(Sanitize(s)) && ' ' !in Sanitize(s) && Trim(Sanitize(s)) == Sanitize(s)
    ensures Sanitize(Sanitize(s)) == Sanitize(s)
  {
    TrimIsTrimmed(s);
    var t := Trim(s);
    assert forall i :: 0 <= i < |t| ==> Sanitize(s)[i] == if t[i] in {':', ' '} then '_' else t[i];
    TrimmedStays(Sanitize(s));
    CleanIsKept(Sanitize(s));
  }

  lemma CleanIsKept(s: string)
    requires Trim(s) == s && ':' !in s && ' ' !in s
    ensures Sanitize(s) == s
  {
  }

  // ---------------------------------------------------------------- the round trip

  lemma Regroup(before: string, name: string, value: string, after: string)
    ensures before + (":" + name + ":") + value + after == before + ":" + (name + ":" + (value + after))
  {
  }

  lemma SplitField(name: string, value: string, after: string)
    requires NoColon(name) && NoColon(value)
    ensures Split(name + ":" + (value + ":" + after)) == [name, value] + Split(after)
  {
    SplitAtColon(name, value + ":" + after);
    SplitAtColon(value, after);
  }

  function Nested(s: string, m: string, g: string, b: string): string {
    "store" + ":" + (s + ":" +
    ("manager" + ":" + (m + ":" +
    ("guide" + ":" + (g + ":" +
    ("bind" + ":" + (b + ":" + "v1")))))))
  }

  lemma FlatIsNested(s: string, m: string, g: string, b: string)
    ensures "store:" + s + ":manager:" + m + ":guide:" + g + ":bind:" + b + ":v1" == Nested(s, m, g, b)
  {
    var upToManager := "store:" + s + ":manager:" + m;
    var bindTail := "bind" + ":" + (b + ":" + "v1");
    var guideTail := "guide" + ":" + (g + ":" + bindTail);
    var managerTail := "manager" + ":" + (m + ":" + guideTail);
    calc {
      upToManager + ":guide:" + g + ":bind:" + b + ":v1";
      { assert ":bind:" == ":" + "bind" + ":"; Regroup(upToManager + ":guide:" + g, "bind", b, ":v1");
        assert ":v1" == ":" + "v1"; assert b + ":v1" == b + ":" + "v1"; }
      upToManager + ":guide:" + g + ":" + bindTail;
      { assert upToManager + ":guide:" + g + ":" + bindTail == upToManager + ":guide:" + g + (":" + bindTail); }
      upToManager + ":guide:" + g + (":" + bindTail);
      { assert ":guide:" == ":" + "guide" + ":"; Regroup(upToManager, "guide", g, ":" + bindTail);
        assert g + (":" + bindTail) == g + ":" + bindTail; }
      upToManager + ":" + guideTail;
      { assert upToManager + ":" + guideTail == upToManager + (":" + guideTail); }
      "store:" + s + ":manager:" + m + (":" + guideTail);
      { assert ":manager:" == ":" + "manager" + ":"; Regroup("store:" + s, "manager", m, ":" + guideTail);
        assert m + (":" + guideTail) == m + ":" + guideTail; }
      "store:" + s + ":" + managerTail;
      { assert "store:" == "store" + ":"; }
      "store" + ":" + (s + ":" + managerTail);
    }
  }

  lemma SplitOfNested(s: string, m: string, g: string, b: string)
    requires NoColon(s) && NoColon(m) && NoColon(g) && NoColon(b)
    ensures Split(Nested(s, m, g, b)) == ["store", s, "manager", m, "guide", g, "bind", b, "v1"]
  {
    var bindTail := "bind" + ":" + (b + ":" + "v1");
    var guideTail := "guide" + ":" + (g + ":" + bindTail);
    var managerTail := "manager" + ":" + (m + ":" + guideTail);
    SplitNoColon("v1");
    SplitField("bind", b, "v1");
    SplitField("guide", g, bindTail);
    SplitField("manager", m, guideTail);
    SplitField("store", s, managerTail);
  }

  lemma SplitOfBuild(storeCode: string, manager: string, guide: string, binding: string)
    ensures Split(Build(storeCode, manager, guide, binding)) ==
            ["store", Sanitize(storeCode), "manager", Sanitize(manager), "guide", Sanitize(guide),
             "bind", Sanitize(binding), "v1"]
  {
    SanitizedIsClean(storeCode);
    SanitizedIsClean(manager);
    SanitizedIsClean(guide);
    SanitizedIsClean(binding);
    FlatIsNested(Sanitize(storeCode), Sanitize(manager), Sanitize(guide), Sanitize(binding));
    SplitOfNested(Sanitize(storeCode), Sanitize(manager), Sanitize(guide), Sanitize(binding));
  }

  /** What a built state parses to, in every case: the first part that reads "bind" decides. */
  lemma ParseOfBuild(storeCode: string, manager: string, guide: string, binding: string)
    ensures Parse(Build(storeCode, manager, guide, binding)) ==
            if Sanitize(storeCode) == "bind" then "manager"
            else if Sanitize(manager) == "bind" then "guide"
            else if Sanitize(guide) == "bind" then "bind"
            else Sanitize(binding)
  {
    SplitOfBuild(storeCode, manager, guide, binding);
    SanitizedIsClean(binding);
    ParseOfParts(Sanitize(storeCode), Sanitize(manager), Sanitize(guide), Sanitize(binding));
  }

  lemma ParseOfParts(s: string, m: string, g: string, b: string)
    ensures ParseParts(["store", s, "manager", m, "guide", g, "bind", b, "v1"]) ==
            if s == "bind" then "manager" else if m == "bind" then "guide" else if g == "bind" then "bind" else Trim(b)
  {
    TrimmedStays("manager");
    TrimmedStays("guide");
    ParseSkips("store", [s, "manager", m, "guide", g, "bind", b, "v1"]);
    ParseStep(s, "manager", [m, "guide", g, "bind", b, "v1"]);
    ParseStep(m, "guide", [g, "bind", b, "v1"]);
    ParseOfGuidePart(g, b);
  }

  lemma ParseOfGuidePart(g: string, b: string)
    ensures ParseParts([g, "bind", b, "v1"]) == if g == "bind" then "bind" else Trim(b)
  {
    TrimmedStays("bind");
    ParseFinds(b, ["v1"]);
    if g == "bind" {
      ParseFinds("bind", [b, "v1"]);
    } else {
      ParseSkips(g, ["bind", b, "v1"]);
    }
  }

  /** Part i is the first that reads "bind" and has a part after it. */
  predicate FirstBind(parts: seq<string>, i: nat) {
    i + 1 < |parts| && parts[i] == "bind" && forall j :: 0 <= j < i ==> parts[j] != "bind"
  }

  lemma {:induction false} ParsePartsMeaning(parts: seq<string>)
    ensures forall i: nat :: FirstBind(parts, i) ==> ParseParts(parts) == Trim(parts[i + 1])
    ensures (forall i: nat :: !FirstBind(parts, i)) ==> ParseParts(parts) == ""
  {
    if |parts| >= 2 && parts[0] != "bind" {
      var rest := parts[1..];
      ParsePartsMeaning(rest);
      forall i: nat | FirstBind(parts, i) ensures i > 0 && FirstBind(rest, i - 1) {
        assert forall j :: 0 <= j < i - 1 ==> rest[j] == parts[j + 1];
      }
      forall i: nat | FirstBind(rest, i) ensures FirstBind(parts, i + 1) {
        assert forall j :: 1 <= j < i + 1 ==> parts[j] == rest[j - 1];
      }
    } else if |parts| >= 2 {
      assert FirstBind(parts, 0);
    }
  }

  /** Any state, built or not: what follows its first part that reads "bind", trimmed, or nothing. */
  lemma ParseMeaning(state: string)
    ensures forall i: nat :: FirstBind(Split(state), i) ==> Parse(state) == Trim(Split(state)[i + 1])
    ensures (forall i: nat :: !FirstBind(Split(state), i)) ==> Parse(state) == ""
  {
    ParsePartsMeaning(Split(state));
  }

  lemma ParseSkips(head: string, rest: seq<string>)
    requires head != "bind" && rest != []
    ensures ParseParts([head] + rest) == ParseParts(rest)
  {
    assert ([head] + rest)[1..] == rest;
    if |rest| == 1 {
      assert ParseParts(rest) == "";
    }
  }

  lemma ParseFinds(value: string, rest: seq<string>)
    ensures ParseParts(["bind", value] + rest) == Trim(value)
  {
  }

  /** A value that reads "bind" makes the next field name the answer. */
  lemma ParseStep(value: string, name: string, rest: seq<string>)
    requires name != "bind" && rest != []
    ensures ParseParts([value, name] + rest) == if value == "bind" then Trim(name) else ParseParts(rest)
  {
    if value != "bind" {
      assert [value, name] + rest == [value] + ([name] + rest);
      ParseSkips(value, [name] + rest);
      ParseSkips(name, rest);
    }
  }

  /** A caller can check beforehand whether a state will lead back to its binding. */
  predicate Readable(storeCode: string, manager: string, guide: string) {
    "bind" !in {Sanitize(storeCode), Sanitize(manager), Sanitize(guide)}
  }

  /** The round trip holds for every binding id exactly when no earlier part sanitises to "bind". */
  lemma RoundTripIff(storeCode: string, manager: string, guide: string)
    ensures Readable(storeCode, manager, guide) <==>
            forall binding :: Parse(Build(storeCode, manager, guide, binding)) == Sanitize(binding)
  {
    if Readable(storeCode, manager, guide) {
      forall binding ensures Parse(Build(storeCode, manager, guide, binding)) == Sanitize(binding) {
        ParseOfBuild(storeCode, manager, guide, binding);
      }
    } else {
      ParseOfBuild(storeCode, manager, guide, "x");
      assert Sanitize("x") == "x" by {
        CleanIsKept("x");
      }
      assert Parse(Build(storeCode, manager, guide, "x")) != Sanitize("x");
    }
  }

  /** An id without outer whitespace, colon or space comes back unchanged. */
  lemma CleanIdRoundTrips(storeCode: string, manager: string, guide: string, binding: string)
    requires Readable(storeCode, manager, guide)
    requires Trim(binding) == binding && ':' !in binding && ' ' !in binding
    ensures Parse(Build(storeCode, manager, guide, binding)) == binding
  {
    ParseOfBuild(storeCode, manager, guide, binding);
    CleanIsKept(binding);
  }
}
