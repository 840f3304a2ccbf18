/**
 * The depth-bounded redaction of src/observability/error/scrub-event.util.ts over object graphs,
 * which may share and may be cyclic.
 */
module Scrub {

  const MAX_SCRUB_DEPTH: nat := 6
  const PLACEHOLDER := "[redacted]"

  // ----- sensitive keys

  /** /api[-_]?key/ is three words here. */
  const SENSITIVE_WORDS: seq<string> :=
    ["pass", "secret", "token", "credential", "authorization", "apikey", "api-key", "api_key",
     "signature", "cookie", "session", "private", "encrypt", "salt", "hash", "dsn"]

  /** Unicode simple case folding, as far as it reaches the letters of the words. */
  function Fold(c: char): char {
    if 'A' <= c <= 'Z' then (c as int + 32) as char
    else if c == '\U{017F}' then 's'
    else if c == '\U{212A}' then 'k'
    else c
  }

  function Folded(s: string): (r: string)
    ensures |r| == |s| && forall i | 0 <= i < |s| :: r[i] == Fold(s[i])
  {
    seq(|s|, i requires 0 <= i < |s| => Fold(s[i]))
  }

  predicate OccursAt(s: string, word: string, i: nat) {
    i + |word| <= |s| && s[i..i + |word|] == word
  }

  predicate Sensitive(key: string) {
    exists k, i :: 0 <= k < |SENSITIVE_WORDS| && 0 <= i <= |key| && OccursAt(Folded(key), SENSITIVE_WORDS[k], i)
  }

  lemma OccursInside(before: string, s: string, after: string, word: string, i: nat)
    requires OccursAt(s, word, i)
    ensures OccursAt(before + s + after, word, |before| + i)
  {
    var whole, at := before + s + after, |before| + i;
    assert whole[at..at + |word|] == s[i..i + |word|];
  }

  /** A word is caught wherever it stands in the key. */
  lemma SensitiveAnywhere(before: string, key: string, after: string)
    requires Sensitive(key)
    ensures Sensitive(before + key + after)
  {
    var k, i :| 0 <= k < |SENSITIVE_WORDS| && 0 <= i <= |key| && OccursAt(Folded(key), SENSITIVE_WORDS[k], i);
    assert Folded(before + key + after) == Folded(before) + Folded(key) + Folded(after);
    OccursInside(Folded(before), Folded(key), Folded(after), SENSITIVE_WORDS[k], i);
  }

  /** This character counts as this letter of a word: in either case, or as the long s or the Kelvin
      sign, which a pattern with the flags i and u takes for s and k. */
  predicate Spells(c: char, w: char) {
    || c == w
    || ('a' <= w <= 'z' && c as int == w as int - 32)
    || (w == 's' && c == '\U{017F}')
    || (w == 'k' && c == '\U{212A}')
  }

  /** The word stands at this place of the key, in any case. */
  predicate StandsAt(key: string, word: string, i: nat) {
    i + |word| <= |key| && forall j | 0 <= j < |word| :: Spells(key[i + j], word[j])
  }

  /** Small letters, and what is no letter. */
  predicate Plain(word: string) {
    forall j | 0 <= j < |word| :: 'a' <= word[j] <= 'z' || word[j] == '-' || word[j] == '_'
  }

  lemma WordsArePlain(k: nat)
    requires k < |SENSITIVE_WORDS|
    ensures Plain(SENSITIVE_WORDS[k])
  {
  }

  lemma FoldSpells(c: char, w: char)
    requires 'a' <= w <= 'z' || w == '-' || w == '_'
    ensures Fold(c) == w <==> Spells(c, w)
  {
  }

  lemma OccursIffStands(key: string, word: string, i: nat)
    requires Plain(word)
    ensures OccursAt(Folded(key), word, i) <==> StandsAt(key, word, i)
  {
    if i + |word| <= |key| {
      var part := Folded(key)[i..i + |word|];
      forall j | 0 <= j < |word| ensures part[j] == word[j] <==> Spells(key[i + j], word[j]) {
        FoldSpells(key[i + j], word[j]);
      }
      assert part == word <==> forall j | 0 <= j < |word| :: part[j] == word[j];
    }
  }

  /** A key is sensitive exactly when one of the words stands somewhere in it, in any case. */
  lemma SensitiveIff(key: string)
    ensures Sensitive(key) <==>
      exists k, i :: 0 <= k < |SENSITIVE_WORDS| && 0 <= i <= |key| && StandsAt(key, SENSITIVE_WORDS[k], i)
  {
    forall k, i | 0 <= k < |SENSITIVE_WORDS| && 0 <= i <= |key|
      ensures OccursAt(Folded(key), SENSITIVE_WORDS[k], i) <==> StandsAt(key, SENSITIVE_WORDS[k], i)
    {
      WordsArePlain(k);
      OccursIffStands(key, SENSITIVE_WORDS[k], i);
    }
  }

  /** The same letter but for its case. */
  predicate SameLetter(c: char, d: char) {
    || c == d
    || ('a' <= c <= 'z' && d as int == c as int - 32)
    || ('a' <= d <= 'z' && c as int == d as int - 32)
  }

  /** Keys that differ in case only are sensitive alike. */
  lemma CaseDoesNotMatter(key: string, other: string)
    requires |key| == |other| && forall i | 0 <= i < |key| :: SameLetter(key[i], other[i])
    ensures Sensitive(key) <==> Sensitive(other)
  {
    assert Folded(key) == Folded(other);
  }

  lemma WordInside(before: string, key: string, after: string, k: nat)
    requires k < |SENSITIVE_WORDS| && StandsAt(key, SENSITIVE_WORDS[k], 0)
    ensures Sensitive(before + key + after)
  {
    SensitiveIff(key);
    SensitiveAnywhere(before, key, after);
  }

  lemma RefreshToken()
    ensures Sensitive("refreshToken")
  {
    WordInside("refresh", "Token", "", 2);
    assert "refresh" + "Token" + "" == "refreshToken";
  }

  lemma HubSignature()
    ensures Sensitive("X-Hub-Signature-256")
  {
    WordInside("X-Hub-", "Signature", "-256", 8);
    assert "X-Hub-" + "Signature" + "-256" == "X-Hub-Signature-256";
  }

  lemma EncryptionKey()
    ensures Sensitive("encryptionKeyWrapped")
  {
    WordInside("", "encrypt", "ionKeyWrapped", 12);
    assert "" + "encrypt" + "ionKeyWrapped" == "encryptionKeyWrapped";
  }

  /** The keys the pattern is explained with. */
  lemma DocumentedKeys()
    ensures Sensitive("refreshToken") && Sensitive("X-Hub-Signature-256") && Sensitive("encryptionKeyWrapped")
  {
    RefreshToken();
    HubSignature();
    EncryptionKey();
  }

  lemma WordIsSensitive(k: nat)
    requires k < |SENSITIVE_WORDS|
    ensures Sensitive(SENSITIVE_WORDS[k])
  {
    var word := SENSITIVE_WORDS[k];
    WordInside("", word, "", k);
    assert "" + word + "" == word;
  }

  /** The words of the pattern. */
  lemma PatternWords()
    ensures forall word | word in
      ["pass", "secret", "token", "credential", "authorization", "apikey", "api-key", "api_key",
       "signature", "cookie", "session", "private", "encrypt", "salt", "hash", "dsn"] :: Sensitive(word)
  {
    forall k | 0 <= k < |SENSITIVE_WORDS| ensures Sensitive(SENSITIVE_WORDS[k]) {
      WordIsSensitive(k);
    }
  }

  // ----- objects and what is reported of them

  type Ref = nat

  /** A function is passed through like any other value that is not an object. */
  datatype Prim = Null | Undefined | Boolean(b: bool) | Number(n: real) | Text(s: string) | Function(name: string)

  datatype Value = Primitive(p: Prim) | Pointer(r: Ref)

  datatype Property = Property(key: string, value: Value)

  datatype Node = Array(items: seq<Value>) | Record(properties: seq<Property>)

  /** Every reference leads to an object; nothing keeps it from leading back. */
  type Graph = Ref -> Node

  datatype Tree = Leaf(p: Prim) | List(items: seq<Tree>) | Object(fields: seq<Field>)

  datatype Field = Field(key: string, value: Tree)

  const Redacted: Tree := Leaf(Text(PLACEHOLDER))

  function Below(depth: nat): nat {
    if depth > MAX_SCRUB_DEPTH then 0 else MAX_SCRUB_DEPTH + 1 - depth
  }

  /** Ends on every graph, cyclic ones included: the depth left goes down. */
  function ScrubValue(g: Graph, v: Value, depth: nat): Tree
    decreases Below(depth), 1
  {
    if depth > MAX_SCRUB_DEPTH then Redacted
    else
      match v
      case Primitive(p) => Leaf(p)
      case Pointer(r) =>
        match g(r)
        case Array(items) => List(seq(|items|, i requires 0 <= i < |items| => ScrubValue(g, items[i], depth + 1)))
        case Record(properties) => Object(ScrubFields(g, properties, depth))
  }

  function ScrubFields(g: Graph, properties: seq<Property>, depth: nat): (fields: seq<Field>)
    requires depth <= MAX_SCRUB_DEPTH
    ensures |fields| == |properties|
    decreases Below(depth), 0, 1
  {
    seq(|properties|, i requires 0 <= i < |properties| => ScrubField(g, properties[i], depth))
  }

  function ScrubField(g: Graph, property: Property, depth: nat): Field
    requires depth <= MAX_SCRUB_DEPTH
    decreases Below(depth), 0, 0
  {
    Field(property.key, if Sensitive(property.key) then Redacted else ScrubValue(g, property.value, depth + 1))
  }

  // ----- scrubRecord fills a dictionary

  ghost predicate DistinctKeys(properties: seq<Property>) {
    forall i, j | 0 <= i < j < |properties| :: properties[i].key != properties[j].key
  }

  /** dictionary[key] = value: an old key keeps its place. */
  function Put(fields: seq<Field>, key: string, value: Tree): seq<Field> {
    if fields == [] then [Field(key, value)]
    else if fields[0].key == key then [Field(key, value)] + fields[1..]
    else [fields[0]] + Put(fields[1..], key, value)
  }

  lemma {:induction false} PutNewKey(fields: seq<Field>, key: string, value: Tree)
    requires forall i | 0 <= i < |fields| :: fields[i].key != key
    ensures Put(fields, key, value) == fields + [Field(key, value)]
  {
    if fields != [] {
      PutNewKey(fields[1..], key, value);
    }
  }

  method ScrubRecord(g: Graph, properties: seq<Property>, depth: nat) returns (scrubbed: seq<Field>)
    requires depth <= MAX_SCRUB_DEPTH && DistinctKeys(properties)
    ensures scrubbed == ScrubFields(g, properties, depth)
  {
    scrubbed := [];
    for i := 0 to |properties|
      invariant scrubbed == ScrubFields(g, properties, depth)[..i]
    {
      var key := properties[i].key;
      var value := if Sensitive(key) then Redacted else ScrubValue(g, properties[i].value, depth + 1);
      PutNewKey(scrubbed, key, value);
      scrubbed := Put(scrubbed, key, value);
    }
  }

  // ----- non-interference, both ways

  /** The two values look the same wherever the scrubber looks: values under sensitive keys and
      past the depth bound may be anything. */
  ghost predicate SameValue(g: Graph, v: Value, h: Graph, w: Value, depth: nat)
    decreases Below(depth), 1
  {
    depth > MAX_SCRUB_DEPTH
    || match (v, w)
       case (Primitive(p), Primitive(q)) => p == q
       case (Pointer(r), Pointer(q)) =>
         (match (g(r), h(q))
          case (Array(a), Array(b)) =>
            |a| == |b| && forall i | 0 <= i < |a| :: SameValue(g, a[i], h, b[i], depth + 1)
          case (Record(a), Record(b)) => SameProperties(g, a, h, b, depth)
          case _ => false)
       case _ => false
  }

  ghost predicate SameProperties(g: Graph, a: seq<Property>, h: Graph, b: seq<Property>, depth: nat)
    requires depth <= MAX_SCRUB_DEPTH
    decreases Below(depth), 0
  {
    |a| == |b| && forall i | 0 <= i < |a| ::
      a[i].key == b[i].key && (Sensitive(a[i].key) || SameValue(g, a[i].value, h, b[i].value, depth + 1))
  }

  /** Scrubbed reports are equal exactly when the values look the same: nothing hidden shows, and
      nothing else is lost. */
  lemma {:induction false} ReportsOnlyWhatIsSeen(g: Graph, v: Value, h: Graph, w: Value, depth: nat)
    ensures ScrubValue(g, v, depth) == ScrubValue(h, w, depth) <==> SameValue(g, v, h, w, depth)
    decreases Below(depth), 1
  {
    if depth <= MAX_SCRUB_DEPTH && v.Pointer? && w.Pointer? {
      match (g(v.r), h(w.r)) {
        case (Array(a), Array(b)) =>
          var s, t := ScrubValue(g, v, depth).items, ScrubValue(h, w, depth).items;
          if |a| == |b| {
            forall i | 0 <= i < |a| ensures s[i] == t[i] <==> SameValue(g, a[i], h, b[i], depth + 1) {
              ReportsOnlyWhatIsSeen(g, a[i], h, b[i], depth + 1);
            }
          }
        case (Record(a), Record(b)) => ReportsOnlySeenFields(g, a, h, b, depth);
        case _ =>
      }
    }
  }

  lemma {:induction false} ReportsOnlySeenFields(g: Graph, a: seq<Property>, h: Graph, b: seq<Property>, depth: nat)
    requires depth <= MAX_SCRUB_DEPTH
    ensures ScrubFields(g, a, depth) == ScrubFields(h, b, depth) <==> SameProperties(g, a, h, b, depth)
    decreases Below(depth), 0
  {
    var s, t := ScrubFields(g, a, depth), ScrubFields(h, b, depth);
    if |a| == |b| {
      forall i | 0 <= i < |a|
        ensures s[i] == t[i] <==>
                a[i].key == b[i].key && (Sensitive(a[i].key) || SameValue(g, a[i].value, h, b[i].value, depth + 1))
      {
        assert s[i] == ScrubField(g, a[i], depth) && t[i] == ScrubField(h, b[i], depth);
        ReportsOnlyWhatIsSeen(g, a[i].value, h, b[i].value, depth + 1);
      }
    }
  }

  // ----- the graph and its unrolling

  /** The tree one sees walking the graph for `fuel` levels; `cut` stands where the walk stops. */
  function Unrolled(g: Graph, v: Value, fuel: nat, cut: Tree): Tree
    decreases fuel
  {
    if fuel == 0 then cut
    else
      match v
      case Primitive(p) => Leaf(p)
      case Pointer(r) =>
        match g(r)
        case Array(items) => List(seq(|items|, i requires 0 <= i < |items| => Unrolled(g, items[i], fuel - 1, cut)))
        case Record(ps) =>
          Object(seq(|ps|, i requires 0 <= i < |ps| => Field(ps[i].key, Unrolled(g, ps[i].value, fuel - 1, cut))))
  }

  /** The scrubber on a tree. */
  function ScrubTree(t: Tree, depth: nat): Tree {
    if depth > MAX_SCRUB_DEPTH then Redacted
    else
      match t
      case Leaf(p) => Leaf(p)
      case List(items) => List(seq(|items|, i requires 0 <= i < |items| => ScrubTree(items[i], depth + 1)))
      case Object(fields) =>
        Object(seq(|fields|, i requires 0 <= i < |fields| =>
          Field(fields[i].key, if Sensitive(fields[i].key) then Redacted else ScrubTree(fields[i].value, depth + 1))))
  }

  /** Scrubbing a graph is scrubbing its unrolling, wherever past the depth bound that was cut off
      and whatever was put there. */
  lemma {:induction false} ScrubsTheUnrolling(g: Graph, v: Value, depth: nat, fuel: nat, cut: Tree)
    requires depth + fuel > MAX_SCRUB_DEPTH
    ensures ScrubTree(Unrolled(g, v, fuel, cut), depth) == ScrubValue(g, v, depth)
    decreases Below(depth)
  {
    if depth <= MAX_SCRUB_DEPTH && v.Pointer? {
      var s, t := ScrubTree(Unrolled(g, v, fuel, cut), depth), ScrubValue(g, v, depth);
      match g(v.r) {
        case Array(items) =>
          forall i | 0 <= i < |items| ensures s.items[i] == t.items[i] {
            ScrubsTheUnrolling(g, items[i], depth + 1, fuel - 1, cut);
          }
        case Record(ps) =>
          forall i | 0 <= i < |ps| ensures s.fields[i] == t.fields[i] {
            assert t.fields == ScrubFields(g, ps, depth);
            assert t.fields[i] == ScrubField(g, ps[i], depth);
            ScrubsTheUnrolling(g, ps[i].value, depth + 1, fuel - 1, cut);
          }
      }
    }
  }

  // ----- how deep it looks

  /** At most n levels of lists and objects, one inside the other. */
  predicate Nested(t: Tree, n: nat) {
    match t
    case Leaf(_) => true
    case List(items) => n > 0 && forall i | 0 <= i < |items| :: Nested(items[i], n - 1)
    case Object(fields) => n > 0 && forall i | 0 <= i < |fields| :: Nested(fields[i].value, n - 1)
  }

  /** Depths 0 to 6 are looked into, and no more: however the graph goes round, a report from depth 0
      is at most seven levels deep. */
  lemma {:induction false} NestingIsBounded(g: Graph, v: Value, depth: nat)
    ensures Nested(ScrubValue(g, v, depth), if depth > 6 then 0 else 7 - depth)
    ensures depth > 6 ==> ScrubValue(g, v, depth) == Redacted
    ensures depth <= 6 && v.Primitive? ==> ScrubValue(g, v, depth) == Leaf(v.p)
    ensures depth <= 6 && v.Pointer? ==>
      if g(v.r).Array? then ScrubValue(g, v, depth).List? && |ScrubValue(g, v, depth).items| == |g(v.r).items|
      else ScrubValue(g, v, depth).Object? && |ScrubValue(g, v, depth).fields| == |g(v.r).properties|
    decreases Below(depth)
  {
    if depth <= 6 && v.Pointer? {
      match g(v.r) {
        case Array(items) =>
          forall i | 0 <= i < |items| ensures Nested(ScrubValue(g, v, depth).items[i], 6 - depth) {
            NestingIsBounded(g, items[i], depth + 1);
          }
        case Record(ps) =>
          forall i | 0 <= i < |ps| ensures Nested(ScrubValue(g, v, depth).fields[i].value, 6 - depth) {
            assert ScrubValue(g, v, depth).fields[i] == ScrubField(g, ps[i], depth);
            NestingIsBounded(g, ps[i].value, depth + 1);
          }
      }
    }
  }

  // ----- what a report is like

  /** Nothing but the placeholder under a sensitive key, at any nesting, or past the depth bound. */
  ghost predicate Reportable(t: Tree, depth: nat) {
    if depth > MAX_SCRUB_DEPTH then t == Redacted
    else
      match t
      case Leaf(_) => true
      case List(items) => forall i | 0 <= i < |items| :: Reportable(items[i], depth + 1)
      case Object(fields) =>
        forall i | 0 <= i < |fields| ::
          if Sensitive(fields[i].key) then fields[i].value == Redacted else Reportable(fields[i].value, depth + 1)
  }

  lemma {:induction false} FixedIffReportable(t: Tree, depth: nat)
    ensures ScrubTree(t, depth) == t <==> Reportable(t, depth)
  {
    if depth <= MAX_SCRUB_DEPTH {
      match t
      case Leaf(_) =>
      case List(items) =>
        var s := ScrubTree(t, depth);
        forall i | 0 <= i < |items| ensures s.items[i] == items[i] <==> Reportable(items[i], depth + 1) {
          FixedIffReportable(items[i], depth + 1);
        }
        assert s == t <==> forall i | 0 <= i < |items| :: s.items[i] == items[i];
      case Object(fields) =>
        var s := ScrubTree(t, depth);
        forall i | 0 <= i < |fields|
          ensures s.fields[i] == fields[i] <==>
            if Sensitive(fields[i].key) then fields[i].value == Redacted else Reportable(fields[i].value, depth + 1)
        {
          FixedIffReportable(fields[i].value, depth + 1);
        }
        assert s == t <==> forall i | 0 <= i < |fields| :: s.fields[i] == fields[i];
    }
  }

  lemma {:induction false} ScrubbedIsReportable(t: Tree, depth: nat)
    ensures Reportable(ScrubTree(t, depth), depth)
  {
    if depth <= MAX_SCRUB_DEPTH {
      match t
      case Leaf(_) =>
      case List(items) =>
        forall i | 0 <= i < |items| ensures Reportable(ScrubTree(items[i], depth + 1), depth + 1) {
          ScrubbedIsReportable(items[i], depth + 1);
        }
      case Object(fields) =>
        forall i | 0 <= i < |fields| ensures Reportable(ScrubTree(fields[i].value, depth + 1), depth + 1) {
          ScrubbedIsReportable(fields[i].value, depth + 1);
        }
    }
  }

  /** What the scrubber makes of any graph holds no sensitive value and no nesting past the bound,
      and scrubbing it again changes nothing. */
  lemma {:induction false} ReportIsFinal(g: Graph, v: Value, depth: nat)
    ensures Reportable(ScrubValue(g, v, depth), depth)
    ensures ScrubTree(ScrubValue(g, v, depth), depth) == ScrubValue(g, v, depth)
  {
    var t := Unrolled(g, v, Below(depth), Redacted);
    ScrubsTheUnrolling(g, v, depth, Below(depth), Redacted);
    ScrubbedIsReportable(t, depth);
    FixedIffReportable(ScrubTree(t, depth), depth);
  }
}
