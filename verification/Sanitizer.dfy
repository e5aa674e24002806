/**
 `audit/sanitization.py`: four successive replacements and a strip, over text that was normalised and
 capped. Normalisation itself is a parameter.
 */
module Sanitizer {
  import opened Wrappers

  /** `value.replace(c, sub)` for a one-character `c`. */
  function Replace(s: string, c: char, sub: string): string {
    if s == "" then "" else (if s[0] == c then sub else [s[0]]) + Replace(s[1..], c, sub)
  }

  /** The C0 controls and DEL, without tab, line feed and carriage return. */
  predicate IsStripped(c: char) {
    var n := c as int;
    n <= 0x08 || n == 0x0b || n == 0x0c || 0x0e <= n <= 0x1f || n == 0x7f
  }

  function Strip(s: string): string {
    if s == "" then "" else (if IsStripped(s[0]) then "" else [s[0]]) + Strip(s[1..])
  }

  function Cap(s: string, maxLen: nat): string {
    if |s| > maxLen then s[..maxLen] else s
  }

  function Escape(s: string): string {
    Strip(Replace(Replace(Replace(Replace(s, '\\', "\\\\"), '\n', "\\n"), '\r', "\\r"), '\t', "\\t"))
  }

  function SanitizeString(normalise: string -> string, value: string, maxLen: nat): string {
    Escape(Cap(normalise(value), maxLen))
  }

  // ---- one pass instead of five -------------------------------------------------------

  function EscapeChar(c: char): string {
    if c == '\\' then "\\\\" else if c == '\n' then "\\n" else if c == '\r' then "\\r" else if c == '\t' then "\\t"
    else if IsStripped(c) then "" else [c]
  }

  function EscapeEach(s: string): string {
    if s == "" then "" else EscapeChar(s[0]) + EscapeEach(s[1..])
  }

  lemma Associates(a: string, b: string, c: string)
    ensures a + (b + c) == a + b + c
  {
  }

  lemma {:induction false} ReplaceConcat(s: string, t: string, c: char, sub: string)
    ensures Replace(s + t, c, sub) == Replace(s, c, sub) + Replace(t, c, sub)
  {
    if s == "" {
      assert s + t == t;
    } else {
      ReplaceConcat(s[1..], t, c, sub);
      assert (s + t)[1..] == s[1..] + t;
      var head := if s[0] == c then sub else [s[0]];
      Associates(head, Replace(s[1..], c, sub), Replace(t, c, sub));
    }
  }

  lemma {:induction false} StripConcat(s: string, t: string)
    ensures Strip(s + t) == Strip(s) + Strip(t)
  {
    if s == "" {
      assert s + t == t;
    } else {
      StripConcat(s[1..], t);
      assert (s + t)[1..] == s[1..] + t;
      var head := if IsStripped(s[0]) then "" else [s[0]];
      Associates(head, Strip(s[1..]), Strip(t));
    }
  }

  lemma EscapeConcat(s: string, t: string)
    ensures Escape(s + t) == Escape(s) + Escape(t)
  {
    ReplaceConcat(s, t, '\\', "\\\\");
    var s1, t1 := Replace(s, '\\', "\\\\"), Replace(t, '\\', "\\\\");
    ReplaceConcat(s1, t1, '\n', "\\n");
    var s2, t2 := Replace(s1, '\n', "\\n"), Replace(t1, '\n', "\\n");
    ReplaceConcat(s2, t2, '\r', "\\r");
    var s3, t3 := Replace(s2, '\r', "\\r"), Replace(t2, '\r', "\\r");
    ReplaceConcat(s3, t3, '\t', "\\t");
    StripConcat(Replace(s3, '\t', "\\t"), Replace(t3, '\t', "\\t"));
  }

  lemma ReplaceOne(a: char, c: char, sub: string)
    ensures Replace([a], c, sub) == if a == c then sub else [a]
  {
    assert [a][1..] == "";
  }

  lemma ReplacePair(b: char, c: char, sub: string)
    requires c != '\\' && c != b
    ensures Replace(['\\', b], c, sub) == ['\\', b]
  {
    assert ['\\', b][1..] == [b];
    ReplaceOne(b, c, sub);
  }

  lemma StripPair(b: char)
    requires !IsStripped(b)
    ensures Strip(['\\', b]) == ['\\', b]
  {
    assert ['\\', b][1..] == [b] && [b][1..] == "";
    assert Strip([b]) == [b] + "" && ['\\'] + [b] == ['\\', b];
  }

  /** The escapes written by one pass are left alone by the later ones. */
  lemma EscapeOne(c: char)
    ensures Escape([c]) == EscapeChar(c)
  {
    ReplaceOne(c, '\\', "\\\\");
    ReplaceOne(c, '\n', "\\n");
    ReplaceOne(c, '\r', "\\r");
    ReplaceOne(c, '\t', "\\t");
    ReplacePair('\\', '\n', "\\n");
    ReplacePair('\\', '\r', "\\r");
    ReplacePair('\\', '\t', "\\t");
    ReplacePair('n', '\r', "\\r");
    ReplacePair('n', '\t', "\\t");
    ReplacePair('r', '\t', "\\t");
    StripPair('\\');
    StripPair('n');
    StripPair('r');
    StripPair('t');
    assert [c][1..] == "";
  }

  /** The order of the replacements matters: with the backslash last, their own escapes would be escaped. */
  lemma {:induction false} EscapeIsOnePass(s: string)
    ensures Escape(s) == EscapeEach(s)
  {
    if s != "" {
      EscapeConcat([s[0]], s[1..]);
      assert [s[0]] + s[1..] == s;
      EscapeOne(s[0]);
      EscapeIsOnePass(s[1..]);
    }
  }

  // ---- what the result looks like -----------------------------------------------------

  /** Any C0 control or DEL. */
  predicate IsControl(c: char) {
    c as int < 0x20 || c as int == 0x7f
  }

  predicate NoControls(s: string) {
    forall i | 0 <= i < |s| :: !IsControl(s[i])
  }

  lemma {:induction false} EscapeEachIsClean(s: string)
    ensures NoControls(EscapeEach(s)) && |EscapeEach(s)| <= 2 * |s|
  {
    if s != "" {
      EscapeEachIsClean(s[1..]);
    }
  }

  lemma SanitizedIsClean(normalise: string -> string, value: string, maxLen: nat)
    ensures NoControls(SanitizeString(normalise, value, maxLen))
    ensures |SanitizeString(normalise, value, maxLen)| <= 2 * maxLen
  {
    EscapeIsOnePass(Cap(normalise(value), maxLen));
    EscapeEachIsClean(Cap(normalise(value), maxLen));
  }

  // ---- reading it back ----------------------------------------------------------------

  function Unescape(s: string): string {
    if s == "" then ""
    else if s[0] == '\\' && |s| >= 2 then
      [if s[1] == 'n' then '\n' else if s[1] == 'r' then '\r' else if s[1] == 't' then '\t' else s[1]] + Unescape(s[2..])
    else [s[0]] + Unescape(s[1..])
  }

  /** Only the stripped characters are gone for good. */
  lemma {:induction false} UnescapeRecovers(s: string)
    ensures Unescape(EscapeEach(s)) == Strip(s)
  {
    if s != "" {
      UnescapeRecovers(s[1..]);
      var head, rest := EscapeChar(s[0]), EscapeEach(s[1..]);
      if |head| == 2 {
        assert (head + rest)[2..] == rest;
      } else if |head| == 1 {
        assert (head + rest)[1..] == rest;
      } else {
        assert head + rest == rest;
      }
    }
  }

  lemma {:induction false} StripKeepsOnlyIf(s: string)
    ensures |Strip(s)| <= |s|
    ensures Strip(s) == s <==> forall i | 0 <= i < |s| :: !IsStripped(s[i])
  {
    if s != "" {
      StripKeepsOnlyIf(s[1..]);
      if !IsStripped(s[0]) {
        assert Strip(s)[1..] == Strip(s[1..]);
        assert forall i | 1 <= i < |s| :: s[i] == s[1..][i - 1];
        assert forall i | 0 <= i < |s| - 1 :: s[1..][i] == s[i + 1];
      }
    }
  }

  /** What is read back is the normalised text, cut to its first `maxLen` characters, less the stripped ones. */
  lemma SanitizedReadsBack(normalise: string -> string, value: string, maxLen: nat)
    ensures var text := normalise(value);
      Unescape(SanitizeString(normalise, value, maxLen)) == Strip(if |text| <= maxLen then text else text[..maxLen])
  {
    EscapeIsOnePass(Cap(normalise(value), maxLen));
    UnescapeRecovers(Cap(normalise(value), maxLen));
  }

  /** For normalised text: it can be read back exactly if it is within the cap and has no stripped character. */
  lemma RoundTripIff(normalise: string -> string, value: string, maxLen: nat)
    requires normalise(value) == value
    ensures Unescape(SanitizeString(normalise, value, maxLen)) == value <==>
            |value| <= maxLen && forall i | 0 <= i < |value| :: !IsStripped(value[i])
  {
    EscapeIsOnePass(Cap(value, maxLen));
    UnescapeRecovers(Cap(value, maxLen));
    StripKeepsOnlyIf(Cap(value, maxLen));
    StripKeepsOnlyIf(value);
  }

  // ---- structured metadata ------------------------------------------------------------

  /** A list stands for a tuple too; a set is anything the walk does not descend into. */
  datatype Metadata =
    | Text(text: string)
    | Scalar(repr: string)
    | Dict(entries: seq<Entry>)
    | List(items: seq<Metadata>)
    | Set(members: seq<Metadata>)

  datatype Entry = Entry(key: string, value: Metadata)

  function SanitizeMetadata(normalise: string -> string, m: Metadata, maxLen: nat): Metadata {
    match m
    case Text(text) => Text(SanitizeString(normalise, text, maxLen))
    case Dict(entries) =>
      Dict(seq(|entries|, i requires 0 <= i < |entries| =>
        Entry(entries[i].key, SanitizeMetadata(normalise, entries[i].value, maxLen))))
    case List(items) => List(seq(|items|, i requires 0 <= i < |items| => SanitizeMetadata(normalise, items[i], maxLen)))
    case _ => m
  }

  /** The part of a structure that a path of positions leads to; the walk does not enter sets. */
  function At(m: Metadata, path: seq<nat>): Option<Metadata> {
    if path == [] then Some(m)
    else
      match m
      case Dict(entries) => if path[0] < |entries| then At(entries[path[0]].value, path[1..]) else None
      case List(items) => if path[0] < |items| then At(items[path[0]], path[1..]) else None
      case _ => None
  }

  /** Each text becomes its sanitised self, in its place; shape, keys, scalars and sets stay. */
  lemma {:induction false} EachTextIsSanitised(normalise: string -> string, m: Metadata, maxLen: nat, path: seq<nat>)
    ensures var before, after := At(m, path), At(SanitizeMetadata(normalise, m, maxLen), path);
      match before
      case None => after == None
      case Some(Text(text)) => after == Some(Text(SanitizeString(normalise, text, maxLen)))
      case Some(Dict(entries)) =>
        && after.Some? && after.value.Dict? && |after.value.entries| == |entries|
        && forall i | 0 <= i < |entries| :: after.value.entries[i].key == entries[i].key
      case Some(List(items)) => after.Some? && after.value.List? && |after.value.items| == |items|
      case Some(_) => after == before
  {
    if path != [] {
      match m
      case Dict(entries) =>
        if path[0] < |entries| {
          EachTextIsSanitised(normalise, entries[path[0]].value, maxLen, path[1..]);
        }
      case List(items) =>
        if path[0] < |items| {
          EachTextIsSanitised(normalise, items[path[0]], maxLen, path[1..]);
        }
      case _ =>
    }
  }

  predicate IsCleanText(text: string, maxLen: nat) {
    NoControls(text) && |text| <= 2 * maxLen
  }

  /** Every text below, keys aside, is free of controls and within twice the cap. */
  predicate IsClean(m: Metadata, maxLen: nat) {
    match m
    case Text(text) => IsCleanText(text, maxLen)
    case Scalar(_) => true
    case Dict(entries) => forall i | 0 <= i < |entries| :: IsClean(entries[i].value, maxLen)
    case List(items) => forall i | 0 <= i < |items| :: IsClean(items[i], maxLen)
    case Set(members) => forall i | 0 <= i < |members| :: IsClean(members[i], maxLen)
  }

  /** Every set below was clean to begin with. */
  predicate SetsAreClean(m: Metadata, maxLen: nat) {
    match m
    case Dict(entries) => forall i | 0 <= i < |entries| :: SetsAreClean(entries[i].value, maxLen)
    case List(items) => forall i | 0 <= i < |items| :: SetsAreClean(items[i], maxLen)
    case Set(_) => IsClean(m, maxLen)
    case _ => true
  }

  /** Every dictionary key below is free of controls and within twice the cap. */
  predicate KeysAreClean(m: Metadata, maxLen: nat) {
    match m
    case Dict(entries) =>
      forall i | 0 <= i < |entries| :: IsCleanText(entries[i].key, maxLen) && KeysAreClean(entries[i].value, maxLen)
    case List(items) => forall i | 0 <= i < |items| :: KeysAreClean(items[i], maxLen)
    case Set(members) => forall i | 0 <= i < |members| :: KeysAreClean(members[i], maxLen)
    case _ => true
  }

  /** Texts come out clean exactly if no set hid an unclean one. */
  lemma {:induction false} SanitizedIsCleanIff(normalise: string -> string, m: Metadata, maxLen: nat)
    ensures IsClean(SanitizeMetadata(normalise, m, maxLen), maxLen) <==> SetsAreClean(m, maxLen)
  {
    match m
    case Text(text) => SanitizedIsClean(normalise, text, maxLen);
    case Dict(entries) =>
      forall i | 0 <= i < |entries|
        ensures IsClean(SanitizeMetadata(normalise, entries[i].value, maxLen), maxLen) <==> SetsAreClean(entries[i].value, maxLen)
      {
        SanitizedIsCleanIff(normalise, entries[i].value, maxLen);
      }
      var out := SanitizeMetadata(normalise, m, maxLen);
      assert forall i | 0 <= i < |entries| :: out.entries[i].value == SanitizeMetadata(normalise, entries[i].value, maxLen);
    case List(items) =>
      forall i | 0 <= i < |items|
        ensures IsClean(SanitizeMetadata(normalise, items[i], maxLen), maxLen) <==> SetsAreClean(items[i], maxLen)
      {
        SanitizedIsCleanIff(normalise, items[i], maxLen);
      }
      var out := SanitizeMetadata(normalise, m, maxLen);
      assert forall i | 0 <= i < |items| :: out.items[i] == SanitizeMetadata(normalise, items[i], maxLen);
    case _ =>
  }

  /** Keys are left as they are: they are clean afterwards exactly if they were before. */
  lemma {:induction false} KeysAreLeftAlone(normalise: string -> string, m: Metadata, maxLen: nat)
    ensures KeysAreClean(SanitizeMetadata(normalise, m, maxLen), maxLen) <==> KeysAreClean(m, maxLen)
  {
    match m
    case Dict(entries) =>
      forall i | 0 <= i < |entries|
        ensures KeysAreClean(SanitizeMetadata(normalise, entries[i].value, maxLen), maxLen) <==> KeysAreClean(entries[i].value, maxLen)
      {
        KeysAreLeftAlone(normalise, entries[i].value, maxLen);
      }
      var out := SanitizeMetadata(normalise, m, maxLen);
      assert forall i | 0 <= i < |entries| ::
        out.entries[i] == Entry(entries[i].key, SanitizeMetadata(normalise, entries[i].value, maxLen));
    case List(items) =>
      forall i | 0 <= i < |items|
        ensures KeysAreClean(SanitizeMetadata(normalise, items[i], maxLen), maxLen) <==> KeysAreClean(items[i], maxLen)
      {
        KeysAreLeftAlone(normalise, items[i], maxLen);
      }
      var out := SanitizeMetadata(normalise, m, maxLen);
      assert forall i | 0 <= i < |items| :: out.items[i] == SanitizeMetadata(normalise, items[i], maxLen);
    case _ =>
  }

  /** A tab inside a set, and a tab in a key, come out as they went in. */
  lemma SetsAndKeysKeepControls(normalise: string -> string, maxLen: nat)
    ensures !IsClean(SanitizeMetadata(normalise, Set([Text("\t")]), maxLen), maxLen)
    ensures !KeysAreClean(SanitizeMetadata(normalise, Dict([Entry("\t", Scalar("null"))]), maxLen), maxLen)
  {
    var tab, hidden, keyed := "\t", Set([Text("\t")]), Dict([Entry("\t", Scalar("null"))]);
    assert tab[0] == '\t' && !NoControls(tab);
    assert !IsClean(hidden.members[0], maxLen) && !IsCleanText(keyed.entries[0].key, maxLen);
    SanitizedIsCleanIff(normalise, hidden, maxLen);
    KeysAreLeftAlone(normalise, keyed, maxLen);
  }
}
