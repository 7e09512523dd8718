/** The health walk over the engine's JSON, whose objects Go iterates in any order. */
module Health {
  import opened Common

  datatype Json =
    | JNull
    | JBool(b: bool)
    | JNumber(n: real)
    | JString(s: string)
    | JArray(items: seq<Json>)
    | JObject(fields: map<string, Json>)

  // ---------------------------------------------------------------- strings

  /** White space as Unicode has it. */
  predicate Space(c: char) {
    || c == ' ' || ('\t' <= c <= '\r') || c == '\U{85}' || c == '\U{A0}' || c == '\U{1680}'
    || ('\U{2000}' <= c <= '\U{200A}') || c == '\U{2028}' || c == '\U{2029}' || c == '\U{202F}' || c == '\U{205F}'
    || c == '\U{3000}'
  }

  lemma SpaceExact(c: char)
    ensures Space(c) <==>
            c as int in {9, 10, 11, 12, 13, 32, 133, 160, 5760, 8192, 8193, 8194, 8195, 8196, 8197, 8198, 8199, 8200, 8201,
                         8202, 8232, 8233, 8239, 8287, 12288}
  {
  }

  function TrimLeft(s: string): (t: string)
    ensures t == "" <==> forall i | 0 <= i < |s| :: Space(s[i])
    ensures t != "" ==> !Space(t[0])
  {
    if s == "" then "" else if Space(s[0]) then TrimLeft(s[1..]) else s
  }

  function TrimSpace(s: string): (t: string)
    ensures t == "" <==> forall i | 0 <= i < |s| :: Space(s[i])
    decreases |s|
  {
    if s == "" then ""
    else if Space(s[|s| - 1]) then TrimSpace(s[..|s| - 1])
    else TrimLeft(s)
  }

  predicate Blank(s: string) {
    forall i | 0 <= i < |s| :: Space(s[i])
  }

  predicate OccursAt(s: string, sub: string, i: int) {
    0 <= i <= i + |sub| <= |s| && s[i..i + |sub|] == sub
  }

  predicate Contains(s: string, sub: string) {
    exists i | 0 <= i <= |s| :: OccursAt(s, sub, i)
  }

  /** Lower case, as far as the words searched for can tell: besides the capitals only the dotted capital I
      and the Kelvin sign have a lower-case letter among the ASCII ones. */
  function LowerChar(c: char): char {
    if 'A' <= c <= 'Z' then c - 'A' + 'a' else if c == '\U{130}' then 'i' else if c == '\U{212A}' then 'k' else c
  }

  function Lower(s: string): string {
    seq(|s|, i requires 0 <= i < |s| => LowerChar(s[i]))
  }

  /** Without underscores, hyphens and blanks. */
  function Squeezed(s: string): string {
    if s == "" then ""
    else (if s[0] in "_- " then "" else [s[0]]) + Squeezed(s[1..])
  }

  function NormalizeKey(key: string): string {
    Squeezed(Lower(key))
  }

  lemma {:induction false} SqueezedFrom(s: string, i: nat) returns (j: nat)
    requires i < |Squeezed(s)|
    ensures j < |s| && s[j] == Squeezed(s)[i]
  {
    if s[0] in "_- " {
      j := SqueezedFrom(s[1..], i);
      j := j + 1;
    } else if i == 0 {
      j := 0;
    } else {
      j := SqueezedFrom(s[1..], i - 1);
      j := j + 1;
    }
  }

  /** A key that normalizes to something with a letter in it is not blank. */
  lemma LetterNotBlank(key: string, i: nat)
    requires i < |NormalizeKey(key)| && 'a' <= NormalizeKey(key)[i] <= 'z'
    ensures !Blank(key)
  {
    var j := SqueezedFrom(Lower(key), i);
    assert !Space(key[j]);
  }

  lemma WordNotBlank(key: string, word: string)
    requires Contains(NormalizeKey(key), word) && word != "" && 'a' <= word[0] <= 'z'
    ensures !Blank(key)
  {
    var n := NormalizeKey(key);
    var i :| 0 <= i <= |n| && OccursAt(n, word, i);
    assert n[i] == n[i..i + |word|][0];
    LetterNotBlank(key, i);
  }

  const SMALL := "abcdefghijklmnopqrstuvwxyz"
  const CAPITAL := "ABCDEFGHIJKLMNOPQRSTUVWXYZ"

  /** A character that reads as the letter or blank l when case is ignored. */
  predicate ReadsAs(c: char, l: char) {
    || c == l || (l == 'i' && c == '\U{130}') || (l == 'k' && c == '\U{212A}')
    || exists j | 0 <= j < |SMALL| && j < |CAPITAL| :: SMALL[j] == l && CAPITAL[j] == c
  }

  /** The word stands somewhere in the text, in whatever case. */
  ghost predicate Mentions(s: string, word: string) {
    exists i: nat :: MentionedAt(s, word, i)
  }

  predicate MentionedAt(s: string, word: string, i: nat) {
    i + |word| <= |s| && forall k | 0 <= k < |word| :: ReadsAs(s[i + k], word[k])
  }

  predicate SmallWord(word: string) {
    forall k | 0 <= k < |word| :: 'a' <= word[k] <= 'z' || word[k] == ' '
  }

  lemma LowerReads(c: char, l: char)
    requires 'a' <= l <= 'z' || l == ' '
    ensures LowerChar(c) == l <==> ReadsAs(c, l)
  {
    assert forall j | 0 <= j < 26 :: SMALL[j] == 'a' + j as char && CAPITAL[j] == 'A' + j as char;
    if 'A' <= c <= 'Z' {
      var j := (c - 'A') as int;
      assert SMALL[j] == LowerChar(c) && CAPITAL[j] == c;
    }
  }

  /** Searching the lower-case text finds a word exactly when the text has it in some case. */
  lemma ContainsExact(s: string, word: string)
    requires SmallWord(word)
    ensures Contains(Lower(s), word) <==> Mentions(s, word)
  {
    var low := Lower(s);
    forall i: nat ensures OccursAt(low, word, i) <==> MentionedAt(s, word, i) {
      if i + |word| <= |s| {
        forall k | 0 <= k < |word| ensures low[i..i + |word|][k] == word[k] <==> ReadsAs(s[i + k], word[k]) {
          LowerReads(s[i + k], word[k]);
        }
      }
    }
    if Contains(low, word) {
      var i :| 0 <= i <= |low| && OccursAt(low, word, i);
      assert MentionedAt(s, word, i);
    }
  }

  /** Squeezing works piece by piece; it drops underscores, hyphens and blanks and keeps all else. */
  lemma {:induction false} SqueezedExact(a: string, b: string)
    ensures Squeezed(a + b) == Squeezed(a) + Squeezed(b)
    ensures (forall k | 0 <= k < |a| :: a[k] == '_' || a[k] == '-' || a[k] == ' ') ==> Squeezed(a) == ""
    ensures (forall k | 0 <= k < |a| :: a[k] != '_' && a[k] != '-' && a[k] != ' ') ==> Squeezed(a) == a
  {
    if a == "" {
      assert a + b == b;
    } else {
      assert (a + b)[1..] == a[1..] + b;
      SqueezedExact(a[1..], b);
    }
  }

  // ---------------------------------------------------------------- what counts as a problem

  predicate HasProblem(v: Json) {
    match v
    case JNull => false
    case JBool(b) => b
    case JNumber(n) => n != 0.0
    case JString(s) => TrimSpace(s) != ""
    case JArray(items) => items != []
    case JObject(fields) => fields != map[]
  }

  predicate BadStatus(s: string) {
    Contains(Lower(s), "disconnected") || Contains(Lower(s), "halted") || Contains(Lower(s), "error")
  }

  predicate SuspectKey(normal: string) {
    Contains(normal, "conflict") || Contains(normal, "problem") || Contains(normal, "error")
  }

  /** One field on its own reports a problem. */
  predicate FieldTroubled(key: string, v: Json) {
    var normal := NormalizeKey(key);
    if normal == "paused" then false
    else if normal == "status" then v.JString? && BadStatus(v.s)
    else if normal == "connected" then v.JBool? && !v.b
    else SuspectKey(normal) && HasProblem(v)
  }

  /** What a field of each name must hold to report a problem, word by word. */
  lemma FieldExact(key: string, v: Json)
    ensures NormalizeKey(key) == "paused" ==> !FieldTroubled(key, v)
    ensures NormalizeKey(key) == "status" ==>
              (FieldTroubled(key, v) <==>
               v.JString? && (Mentions(v.s, "disconnected") || Mentions(v.s, "halted") || Mentions(v.s, "error")))
    ensures NormalizeKey(key) == "connected" ==> (FieldTroubled(key, v) <==> v == JBool(false))
    ensures NormalizeKey(key) != "paused" && NormalizeKey(key) != "status" && NormalizeKey(key) != "connected" ==>
              (FieldTroubled(key, v) <==>
               && (exists word, a, b | word in ["conflict", "problem", "error"] :: NormalizeKey(key) == a + word + b)
               && v !in [JNull, JBool(false), JNumber(0.0), JArray([]), JObject(map[])]
               && (v.JString? ==> exists i | 0 <= i < |v.s| :: !Space(v.s[i])))
  {
    var normal := NormalizeKey(key);
    if v.JString? {
      ContainsExact(v.s, "disconnected");
      ContainsExact(v.s, "halted");
      ContainsExact(v.s, "error");
    }
    SplitAround(normal, "conflict");
    SplitAround(normal, "problem");
    SplitAround(normal, "error");
    assert SuspectKey(normal) <==> exists word, a, b | word in ["conflict", "problem", "error"] :: normal == a + word + b;
  }

  lemma SplitAround(s: string, word: string)
    ensures Contains(s, word) <==> exists a, b :: s == a + word + b
  {
    if Contains(s, word) {
      var i :| 0 <= i <= |s| && OccursAt(s, word, i);
      assert s == s[..i] + word + s[i + |word|..];
    }
    if a, b :| s == a + word + b {
      assert s[|a|..|a| + |word|] == word;
      assert OccursAt(s, word, |a|);
    }
  }

  predicate FieldPaused(key: string, v: Json) {
    NormalizeKey(key) == "paused" && v == JBool(true)
  }

  /** Somewhere in the value a field reports a problem; no order is involved. */
  predicate Troubled(v: Json) {
    match v
    case JObject(fields) => exists k | k in fields :: FieldTroubled(k, fields[k]) || Troubled(fields[k])
    case JArray(items) => exists i | 0 <= i < |items| :: Troubled(items[i])
    case _ => false
  }

  predicate Paused(v: Json) {
    match v
    case JObject(fields) => exists k | k in fields :: FieldPaused(k, fields[k]) || Paused(fields[k])
    case JArray(items) => exists i | 0 <= i < |items| :: Paused(items[i])
    case _ => false
  }

  // ---------------------------------------------------------------- the walk

  /** The report while it is filled. */
  class Report {
    var paused: bool
    var status: string
    var problems: seq<string>

    constructor ()
      ensures !paused && status == "" && problems == []
    {
      paused, status, problems := false, "", [];
    }

    ghost predicate AllTold()
      reads this
    {
      forall i | 0 <= i < |problems| :: !Blank(problems[i])
    }
  }

  /** Not modelled further: how a problem is worded after its path. */
  function Describe(path: string, v: Json): string {
    match v
    case JString(s) => path + ": " + s
    case JNumber(_) => path + ": number"
    case JArray(items) => path + ": items"
    case JObject(fields) => path + ": items"
    case _ => path
  }

  lemma LongerNotBlank(s: string, t: string)
    requires !Blank(s)
    ensures !Blank(s + t) && !Blank(t + s)
  {
    var i :| 0 <= i < |s| && !Space(s[i]);
    assert (s + t)[i] == s[i] && (t + s)[|t| + i] == s[i];
  }

  method VisitField(key: string, childPath: string, v: Json, report: Report)
    requires report.AllTold() && (!Blank(key) ==> !Blank(childPath))
    modifies report
    ensures report.AllTold() && old(report.problems) <= report.problems
    ensures |report.problems| > |old(report.problems)| <==> FieldTroubled(key, v)
    ensures report.paused == (old(report.paused) || FieldPaused(key, v))
    ensures report.status == if NormalizeKey(key) == "status" && v.JString? then v.s else old(report.status)
  {
    var normal := NormalizeKey(key);
    if normal == "paused" {
      if v.JBool? && v.b {
        report.paused := true;
      }
    } else if normal == "status" {
      if v.JString? {
        report.status := v.s;
        if BadStatus(v.s) {
          var problem := childPath + "=" + v.s;
          assert problem[|childPath|] == '=' && !Space('=');
          report.problems := report.problems + [problem];
        }
      }
    } else if normal == "connected" {
      if v.JBool? && !v.b {
        var problem := childPath + " is disconnected";
        assert problem[|childPath| + 1] == 'i' && !Space('i');
        report.problems := report.problems + [problem];
      }
    } else if SuspectKey(normal) {
      if HasProblem(v) {
        SuspectNotBlank(key);
        DescribeNotBlank(childPath, v);
        report.problems := report.problems + [Describe(childPath, v)];
      }
    }
  }

  lemma SuspectNotBlank(key: string)
    requires SuspectKey(NormalizeKey(key))
    ensures !Blank(key)
  {
    if Contains(NormalizeKey(key), "conflict") {
      WordNotBlank(key, "conflict");
    } else if Contains(NormalizeKey(key), "problem") {
      WordNotBlank(key, "problem");
    } else {
      WordNotBlank(key, "error");
    }
  }

  lemma DescribeNotBlank(path: string, v: Json)
    requires !Blank(path)
    ensures !Blank(Describe(path, v))
  {
    if Describe(path, v) != path {
      assert path <= Describe(path, v);
      LongerNotBlank(path, Describe(path, v)[|path|..]);
      assert path + Describe(path, v)[|path|..] == Describe(path, v);
    }
  }

  /** Among the fields visited so far. */
  predicate TroubledOutside(fields: map<string, Json>, keys: set<string>) {
    exists k | k in fields && k !in keys :: FieldTroubled(k, fields[k]) || Troubled(fields[k])
  }

  predicate PausedOutside(fields: map<string, Json>, keys: set<string>) {
    exists k | k in fields && k !in keys :: FieldPaused(k, fields[k]) || Paused(fields[k])
  }

  lemma VisitedMore(fields: map<string, Json>, keys: set<string>, key: string)
    requires key in keys && key in fields
    ensures TroubledOutside(fields, keys - {key}) <==>
            TroubledOutside(fields, keys) || FieldTroubled(key, fields[key]) || Troubled(fields[key])
    ensures PausedOutside(fields, keys - {key}) <==>
            PausedOutside(fields, keys) || FieldPaused(key, fields[key]) || Paused(fields[key])
  {
  }

  /** Visits every field of every object. */
  method WalkHealth(path: string, v: Json, report: Report)
    requires report.AllTold()
    modifies report
    ensures report.AllTold() && old(report.problems) <= report.problems
    ensures |report.problems| > |old(report.problems)| <==> Troubled(v)
    ensures report.paused == (old(report.paused) || Paused(v))
    decreases v, 1
  {
    match v
    case JObject(fields) => WalkObject(path, v, report);
    case JArray(items) =>
      for i := 0 to |items|
        invariant report.AllTold() && old(report.problems) <= report.problems
        invariant |report.problems| > |old(report.problems)| <==> exists j | 0 <= j < i :: Troubled(items[j])
        invariant report.paused == (old(report.paused) || exists j | 0 <= j < i :: Paused(items[j]))
      {
        WalkHealth(path + "[]", items[i], report);
      }
    case _ =>
  }

  /** The fields of one object, in any order. */
  method WalkObject(path: string, v: Json, report: Report)
    requires v.JObject? && report.AllTold()
    modifies report
    ensures report.AllTold() && old(report.problems) <= report.problems
    ensures |report.problems| > |old(report.problems)| <==> TroubledOutside(v.fields, {})
    ensures report.paused == (old(report.paused) || PausedOutside(v.fields, {}))
    decreases v, 0
  {
    var fields, keys := v.fields, v.fields.Keys;
    while keys != {}
      invariant keys <= fields.Keys && report.AllTold() && old(report.problems) <= report.problems
      invariant |report.problems| > |old(report.problems)| <==> TroubledOutside(fields, keys)
      invariant report.paused == (old(report.paused) || PausedOutside(fields, keys))
      decreases keys
    {
      var key :| key in keys;
      var childPath := if path == "" then key else path + "." + key;
      if !Blank(key) {
        LongerNotBlank(key, path + ".");
      }
      VisitField(key, childPath, fields[key], report);
      WalkHealth(childPath, fields[key], report);
      VisitedMore(fields, keys, key);
      keys := keys - {key};
    }
  }

  /** Trimmed, without blanks and without repetition, in order of first appearance. */
  method UniqueStrings(values: seq<string>) returns (result: seq<string>)
    ensures forall i, j | 0 <= i < j < |result| :: result[i] != result[j]
    ensures forall r :: r in result <==> r != "" && exists i | 0 <= i < |values| :: TrimSpace(values[i]) == r
  {
    result := [];
    for k := 0 to |values|
      invariant forall i, j | 0 <= i < j < |result| :: result[i] != result[j]
      invariant forall r :: r in result <==> r != "" && exists i | 0 <= i < k :: TrimSpace(values[i]) == r
    {
      var value := TrimSpace(values[k]);
      if value != "" && value !in result {
        result := result + [value];
      }
    }
  }

  /** Healthy does not depend on the iteration order: it says that nothing in the value reports a problem
      and nothing says paused. */
  method InspectHealth(raw: Json) returns (healthy: bool, problems: seq<string>)
    ensures healthy <==> !Troubled(raw) && !Paused(raw)
    ensures healthy <==> problems == []
    ensures Paused(raw) ==> problems[|problems| - 1..] == ["session is paused"]
    ensures Troubled(raw) && Paused(raw) ==> |problems| > 1
  {
    var report := new Report();
    WalkHealth("", raw, report);
    problems := UniqueStrings(report.problems);
    assert problems != [] <==> Troubled(raw) by {
      if report.problems != [] {
        assert !Blank(report.problems[0]) && TrimSpace(report.problems[0]) in problems;
      } else if problems != [] {
        assert problems[0] in problems;
      }
    }
    healthy := problems == [] && !report.paused;
    if report.paused {
      problems := problems + ["session is paused"];
    }
  }

  // ---------------------------------------------------------------- conflict paths

  predicate NamedHere(key: string, v: Json, inside: bool) {
    inside && NormalizeKey(key) == "path" && v.JString? && v.s != ""
  }

  /** A path named inside a conflict, at any depth. */
  predicate NamesPath(v: Json, inConflict: bool) {
    match v
    case JObject(fields) =>
      exists k | k in fields ::
        var inside := inConflict || Contains(NormalizeKey(k), "conflict");
        || NamedHere(k, fields[k], inside)
        || NamesPath(fields[k], inside)
    case JArray(items) => exists i | 0 <= i < |items| :: NamesPath(items[i], inConflict)
    case _ => false
  }

  /** The walk of ConflictPaths; `clean` is the path cleaner. */
  method ConflictWalk(v: Json, inConflict: bool, clean: string -> string) returns (seen: set<string>)
    ensures seen != {} <==> NamesPath(v, inConflict)
    decreases v
  {
    seen := {};
    match v
    case JObject(fields) =>
      var keys := fields.Keys;
      while keys != {}
        invariant keys <= fields.Keys
        invariant seen != {} <==> exists k | k in fields && k !in keys ::
                    var inside := inConflict || Contains(NormalizeKey(k), "conflict");
                    || NamedHere(k, fields[k], inside)
                    || NamesPath(fields[k], inside)
        decreases keys
      {
        var key :| key in keys;
        var inside := inConflict || Contains(NormalizeKey(key), "conflict");
        if inside && NormalizeKey(key) == "path" && fields[key].JString? && fields[key].s != "" {
          seen := seen + {clean(fields[key].s)};
        }
        var below := ConflictWalk(fields[key], inside, clean);
        seen := seen + below;
        keys := keys - {key};
      }
    case JArray(items) =>
      for i := 0 to |items|
        invariant seen != {} <==> exists j | 0 <= j < i :: NamesPath(items[j], inConflict)
      {
        var below := ConflictWalk(items[i], inConflict, clean);
        seen := seen + below;
      }
    case _ =>
  }

  /** Whoever is told a conflict path is also told that the session is unhealthy. */
  lemma {:induction false} ConflictsAreUnhealthy(v: Json)
    requires NamesPath(v, false)
    ensures Troubled(v)
    decreases v
  {
    match v
    case JObject(fields) =>
      var k :| k in fields && (
        var inside := Contains(NormalizeKey(k), "conflict");
        || NamedHere(k, fields[k], inside)
        || NamesPath(fields[k], inside));
      if Contains(NormalizeKey(k), "conflict") {
        ConflictKey(NormalizeKey(k));
        assert HasProblem(fields[k]) by { NamesPathNotEmpty(fields[k], true); }
        assert FieldTroubled(k, fields[k]);
      } else {
        ConflictsAreUnhealthy(fields[k]);
      }
    case JArray(items) =>
      var i :| 0 <= i < |items| && NamesPath(items[i], false);
      ConflictsAreUnhealthy(items[i]);
    case _ =>
  }

  lemma NamesPathNotEmpty(v: Json, inConflict: bool)
    requires NamesPath(v, inConflict)
    ensures (v.JObject? && v.fields != map[]) || (v.JArray? && v.items != [])
  {
  }

  /** No other case of the walk takes a key that mentions a conflict. */
  lemma ConflictKey(normal: string)
    requires Contains(normal, "conflict")
    ensures normal != "paused" && normal != "status" && normal != "connected" && normal != "path"
  {
    var i :| 0 <= i <= |normal| && OccursAt(normal, "conflict", i);
    assert normal[i + 3] == normal[i..i + |"conflict"|][3] == 'f';
  }
}
