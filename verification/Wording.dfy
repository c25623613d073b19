/** The wording check of the report and the diagnostic: both are rendered, lower-cased and
    searched for prohibited terms, so an identifier of the trace can make a run raise. */
module Wording {
  import opened Json
  import opened Records

  /** `BANNED`. */
  const BANNED: seq<string> :=
    ["root cause", "caused by", "because", "responsible for", "the failure was", "proves", "improves outcomes",
     "ready for promotion"]

  function LowerChar(c: char): char {
    if 'A' <= c <= 'Z' then (c as int + 32) as char else c
  }

  function Lower(s: string): (r: string)
    ensures |r| == |s| && forall i :: 0 <= i < |r| ==> r[i] == LowerChar(s[i])
  {
    seq(|s|, i requires 0 <= i < |s| => LowerChar(s[i]))
  }

  predicate OccursAt(s: string, t: string, i: int) {
    0 <= i <= |s| - |t| && s[i..i + |t|] == t
  }

  /** Python's `t in s`. */
  predicate Contains(s: string, t: string) {
    exists i: int :: 0 <= i <= |s| - |t| && OccursAt(s, t, i)
  }

  predicate TermChar(c: char) {
    c == ' ' || 'a' <= c <= 'z'
  }

  /** Letters and spaces, more of them than in any word of JSON. */
  predicate Term(t: string) {
    |t| > 5 && forall c <- t :: TermChar(c)
  }

  // ---------------------------------------------------------------- terms do not cross separators

  lemma {:induction false} OccursLeft(a: string, b: string, t: string, i: int)
    requires OccursAt(a, t, i)
    ensures OccursAt(a + b, t, i)
  {
    assert (a + b)[i..i + |t|] == a[i..i + |t|];
  }

  lemma {:induction false} OccursRight(a: string, b: string, t: string, i: int)
    requires OccursAt(b, t, i)
    ensures OccursAt(a + b, t, |a| + i)
  {
    assert (a + b)[|a| + i..|a| + i + |t|] == b[i..i + |t|];
  }

  lemma {:induction false} OccursApart(a: string, c: char, b: string, t: string, i: int)
    requires t != "" && c !in t && OccursAt(a + [c] + b, t, i)
    ensures OccursAt(a, t, i) || OccursAt(b, t, i - |a| - 1)
  {
    var s := a + [c] + b;
    forall j | i <= j < i + |t| ensures s[j] != c {
      assert s[i..i + |t|][j - i] == t[j - i];
      assert t[j - i] in t;
    }
    assert s[|a|] == c;
    if i + |t| <= |a| {
      assert s[i..i + |t|] == a[i..i + |t|];
    } else {
      assert s[i..i + |t|] == b[i - |a| - 1..i - |a| - 1 + |t|];
    }
  }

  lemma {:induction false} SeparatorSplits(a: string, c: char, b: string, t: string)
    requires t != "" && c !in t
    ensures Contains(a + [c] + b, t) <==> Contains(a, t) || Contains(b, t)
  {
    if i :| 0 <= i <= |a + [c] + b| - |t| && OccursAt(a + [c] + b, t, i) {
      OccursApart(a, c, b, t, i);
    }
    if i :| 0 <= i <= |a| - |t| && OccursAt(a, t, i) {
      OccursLeft(a, [c] + b, t, i);
      assert a + [c] + b == a + ([c] + b);
    }
    if i :| 0 <= i <= |b| - |t| && OccursAt(b, t, i) {
      OccursRight(a + [c], b, t, i);
    }
  }

  /** A character that neither is nor becomes a letter or a space. */
  predicate Separator(c: char) {
    !TermChar(LowerChar(c))
  }

  lemma {:induction false} LowerSplits(a: string, c: char, b: string, t: string)
    requires Term(t) && Separator(c)
    ensures Contains(Lower(a + [c] + b), t) <==> Contains(Lower(a), t) || Contains(Lower(b), t)
  {
    assert Lower(a + [c] + b) == Lower(a) + [LowerChar(c)] + Lower(b);
    assert LowerChar(c) !in t;
    SeparatorSplits(Lower(a), LowerChar(c), Lower(b), t);
  }

  lemma {:induction false} NothingInEmpty(t: string)
    requires t != ""
    ensures !Contains(Lower(""), t)
  {}

  /** Text between two separators. */
  lemma {:induction false} Framed(l: char, s: string, r: char, t: string)
    requires Term(t) && Separator(l) && Separator(r)
    ensures Contains(Lower([l] + s + [r]), t) <==> Contains(Lower(s), t)
  {
    NothingInEmpty(t);
    LowerSplits("", l, s + [r], t);
    assert "" + [l] + (s + [r]) == [l] + s + [r];
    LowerSplits(s, r, "", t);
    assert s + [r] + "" == s + [r];
  }

  // ---------------------------------------------------------------- a rendered value

  /** Some key or string of the value contains the term, as it is printed. */
  predicate Mentions(v: Value, t: string) {
    match v
    case Str(s) => Contains(Lower(Escape(s)), t)
    case Arr(items) => exists i :: 0 <= i < |items| && Mentions(items[i], t)
    case Obj(fields) => exists k :: k in fields && (Contains(Lower(Escape(k)), t) || Mentions(fields[k], t))
    case _ => false
  }

  lemma {:induction false} ShortHasNone(s: string, t: string)
    requires Term(t) && |s| <= 5
    ensures !Contains(Lower(s), t)
  {}

  lemma {:induction false} NumberHasNone(n: int, t: string)
    requires Term(t)
    ensures !Contains(Lower(IntText(n)), t)
  {
    var s, digits := IntText(n), NatText(if n < 0 then -n else n);
    forall i | 0 <= i < |s| ensures !TermChar(Lower(s)[i]) {
      assert s[i] == '-' || s[i] in digits;
    }
    assert t[0] in t;
    forall i | 0 <= i <= |s| - |t| ensures !OccursAt(Lower(s), t, i) {
      assert Lower(s)[i..i + |t|][0] == Lower(s)[i];
    }
  }

  lemma {:induction false} QuoteMentions(s: string, t: string)
    requires Term(t)
    ensures Contains(Lower(Quote(s)), t) <==> Contains(Lower(Escape(s)), t)
  {
    Framed('"', Escape(s), '"', t);
  }

  /** Rendering keeps terms apart: a term occurs in the printed and lower-cased value exactly
      when it occurs in one of its keys or strings. */
  lemma {:induction false} RenderedMentions(v: Value, t: string)
    requires Term(t) && FloatFree(v)
    ensures Contains(Lower(Print(v)), t) <==> Mentions(v, t)
    decreases v, 1
  {
    match v
    case Null => ShortHasNone("null", t);
    case Bool(b) => ShortHasNone(if b then "true" else "false", t);
    case Num(n) => NumberHasNone(n, t);
    case Str(s) => QuoteMentions(s, t);
    case Arr(items) =>
      ItemsMention(items, t);
      Framed('[', PrintItems(items), ']', t);
    case Obj(fields) =>
      var keys := SortedKeys(fields.Keys);
      MembersMention(v, keys, t);
      Framed('{', PrintMembers(v, keys), '}', t);
    case Float(_) =>
  }

  lemma {:induction false} ItemsMention(items: seq<Value>, t: string)
    requires Term(t) && forall i :: 0 <= i < |items| ==> FloatFree(items[i])
    ensures Contains(Lower(PrintItems(items)), t) <==> exists i :: 0 <= i < |items| && Mentions(items[i], t)
    decreases items, 0
  {
    if items == [] {
      NothingInEmpty(t);
    } else {
      RenderedMentions(items[0], t);
      if |items| > 1 {
        var rest := items[1..];
        ItemsMention(rest, t);
        LowerSplits(Print(items[0]), ',', PrintItems(rest), t);
        SomeItem(items, t);
      }
    }
  }

  lemma {:induction false} SomeItem(items: seq<Value>, t: string)
    requires items != []
    ensures (exists i :: 0 <= i < |items| && Mentions(items[i], t)) <==>
      Mentions(items[0], t) || exists i :: 0 <= i < |items[1..]| && Mentions(items[1..][i], t)
  {
    var rest := items[1..];
    if i :| 0 <= i < |rest| && Mentions(rest[i], t) {
      assert items[i + 1] == rest[i];
    }
    if i :| 0 <= i < |items| && Mentions(items[i], t) {
      assert i > 0 ==> rest[i - 1] == items[i];
    }
  }

  predicate MemberMentions(v: Value, k: string, t: string)
    requires v.Obj? && k in v.fields
  {
    Contains(Lower(Escape(k)), t) || Mentions(v.fields[k], t)
  }

  lemma {:induction false} MembersMention(v: Value, keys: seq<string>, t: string)
    requires Term(t) && FloatFree(v) && v.Obj? && forall k <- keys :: k in v.fields
    ensures Contains(Lower(PrintMembers(v, keys)), t) <==> exists k :: k in keys && MemberMentions(v, k, t)
    decreases v, 0, |keys|
  {
    if keys == [] {
      NothingInEmpty(t);
    } else {
      var k, rest := keys[0], keys[1..];
      var first := Quote(k) + ":" + Print(v.fields[k]);
      assert Contains(Lower(first), t) <==> MemberMentions(v, k, t) by {
        RenderedMentions(v.fields[k], t);
        QuoteMentions(k, t);
        LowerSplits(Quote(k), ':', Print(v.fields[k]), t);
      }
      assert keys == [k] + rest;
      if rest != [] {
        MembersMention(v, rest, t);
        LowerSplits(first, ',', PrintMembers(v, rest), t);
        assert PrintMembers(v, keys) == first + "," + PrintMembers(v, rest);
      }
    }
  }

  // ---------------------------------------------------------------- which identifiers hold a term

  /** An identifier the check would find a term in; only the two terms of one word fit the
      identifier grammar. */
  predicate Worded(name: string) {
    Contains(Lower(name), "because") || Contains(Lower(name), "proves")
  }

  /** Some of the identifiers is worded. */
  predicate AnyWorded(names: set<string>) {
    exists s :: s in names && Worded(s)
  }

  lemma {:induction false} BannedAreTerms(t: string)
    requires t in BANNED
    ensures Term(t)
    ensures t == "because" || t == "proves" || ' ' in t
  {
    assert "root cause"[4] == ' ' && "caused by"[6] == ' ' && "responsible for"[11] == ' ';
    assert "the failure was"[3] == ' ' && "improves outcomes"[8] == ' ' && "ready for promotion"[5] == ' ';
  }

  lemma {:induction false} PlainEscape(s: string)
    requires forall i :: 0 <= i < |s| ==> IdentChar(s[i])
    ensures Escape(s) == s
  {
    if s != "" {
      assert IdentChar(s[0]);
      PlainEscape(s[1..]);
      assert s == [s[0]] + s[1..];
    }
  }

  lemma {:induction false} SpacedTermsDoNotFit(name: string, t: string)
    requires (forall i :: 0 <= i < |name| ==> IdentChar(name[i])) && ' ' in t
    ensures !Contains(Lower(name), t)
  {
    var j :| 0 <= j < |t| && t[j] == ' ';
    forall i | 0 <= i <= |name| - |t| ensures !OccursAt(Lower(name), t, i) {
      assert Lower(name)[i..i + |t|][j] == LowerChar(name[i + j]);
    }
  }

  /** The check finds a term in an identifier exactly when it is a worded one. */
  lemma {:induction false} WordedMeaning(name: string)
    requires IsIdentifier(name)
    ensures (exists t :: t in BANNED && Contains(Lower(Escape(name)), t)) <==> Worded(name)
  {
    forall i | 0 <= i < |name| ensures IdentChar(name[i]) { assert name[i] in name; }
    PlainEscape(name);
    forall t | t in BANNED ensures t == "because" || t == "proves" || !Contains(Lower(name), t) {
      BannedAreTerms(t);
      if ' ' in t {
        SpacedTermsDoNotFit(name, t);
      }
    }
    assert BANNED[2] in BANNED && BANNED[5] in BANNED;
  }

  // ---------------------------------------------------------------- a rendered document

  /** A key or a string of the value. */
  predicate Holds(v: Value, s: string) {
    match v
    case Str(x) => x == s
    case Arr(items) => exists i :: 0 <= i < |items| && Holds(items[i], s)
    case Obj(fields) => s in fields || exists k :: k in fields && Holds(fields[k], s)
    case _ => false
  }

  lemma {:induction false} MentionedIsHeld(v: Value, t: string) returns (s: string)
    requires Mentions(v, t)
    ensures Holds(v, s) && Contains(Lower(Escape(s)), t)
  {
    match v
    case Str(x) => s := x;
    case Arr(items) =>
      var i :| 0 <= i < |items| && Mentions(items[i], t);
      s := MentionedIsHeld(items[i], t);
    case Obj(fields) =>
      var k :| k in fields && (Contains(Lower(Escape(k)), t) || Mentions(fields[k], t));
      if Contains(Lower(Escape(k)), t) {
        s := k;
      } else {
        s := MentionedIsHeld(fields[k], t);
      }
  }

  lemma {:induction false} HeldIsMentioned(v: Value, s: string, t: string)
    requires Holds(v, s) && Contains(Lower(Escape(s)), t)
    ensures Mentions(v, t)
  {
    match v
    case Str(x) =>
    case Arr(items) =>
      var i :| 0 <= i < |items| && Holds(items[i], s);
      HeldIsMentioned(items[i], s, t);
    case Obj(fields) =>
      if s !in fields {
        var k :| k in fields && Holds(fields[k], s);
        HeldIsMentioned(fields[k], s, t);
      }
  }

  /** What the check does with a document. */
  predicate Raises(document: Value) {
    exists t :: t in BANNED && Contains(Lower(Print(document)), t)
  }

  /** The keys and strings of a document are fixed words, in none of which a term occurs, and
      identifiers. */
  ghost predicate Renders(document: Value, fixed: set<string>, names: set<string>) {
    && FloatFree(document)
    && (forall s <- fixed, t <- BANNED :: !Contains(Lower(Escape(s)), t))
    && (forall s :: Holds(document, s) ==> s in fixed || s in names)
    && (forall s <- names :: IsIdentifier(s) && Holds(document, s))
  }

  /** A document of fixed words and identifiers raises exactly when one of the identifiers is
      worded. */
  lemma {:induction false} DocumentRaises(document: Value, fixed: set<string>, names: set<string>)
    requires Renders(document, fixed, names)
    ensures Raises(document) <==> AnyWorded(names)
  {
    if t :| t in BANNED && Contains(Lower(Print(document)), t) {
      BannedAreTerms(t);
      RenderedMentions(document, t);
      var s := MentionedIsHeld(document, t);
      WordedMeaning(s);
    }
    if s :| s in names && Worded(s) {
      WordedMeaning(s);
      var t :| t in BANNED && Contains(Lower(Escape(s)), t);
      BannedAreTerms(t);
      HeldIsMentioned(document, s, t);
      RenderedMentions(document, t);
    }
  }

  /** Record identifiers never are. */
  lemma {:induction false} RecordIdsAreNotWorded(id: string)
    requires IsRecordId(id)
    ensures !Worded(id)
  {
    forall i | 0 <= i < |id| ensures id[i] != 'u' && id[i] != 'v' {
      assert i < 4 ==> id[i] == id[..4][i];
    }
    assert forall i :: 0 <= i < |id| ==> LowerChar(id[i]) == id[i];
    LacksLetter(id, "because", 'u', 4);
    LacksLetter(id, "proves", 'v', 3);
  }

  lemma {:induction false} LacksLetter(name: string, t: string, c: char, j: nat)
    requires j < |t| && t[j] == c && 'a' <= c <= 'z'
    requires forall i :: 0 <= i < |name| ==> LowerChar(name[i]) != c
    ensures !Contains(Lower(name), t)
  {
    forall i | 0 <= i <= |name| - |t| ensures !OccursAt(Lower(name), t, i) {
      assert Lower(name)[i..i + |t|][j] == Lower(name)[i + j];
    }
  }

  lemma {:induction false} ShortNamesAreNotWorded(name: string)
    requires |name| <= 5
    ensures !Worded(name)
  {}
}
