/** Message lookup: a dotted key names a path through a nested message
    tree, the locale's message set falls back to English, and `{name}`
    placeholders are replaced by parameter values. */
module Translation {
  import opened Wrappers
  import Text
  import Seqs

  /** A JSON value of a message file. Numbers, booleans, null and arrays are
      all `Other`: the lookup treats none of them as text or as a node it
      can descend into. */
  datatype Value = Str(text: string) | Obj(fields: map<string, Value>) | Other

  /** The value reached from `v` by following `keys` one object field at a
      time, or `None` when a key is missing or a non-object is met first. */
  function Descend(v: Value, keys: seq<string>): (r: Option<Value>)
    ensures keys == [] ==> r == Some(v)
    ensures keys != [] && !(v.Obj? && keys[0] in v.fields) ==> r.None?
    decreases |keys|
  {
    if keys == [] then Some(v)
    else if v.Obj? && keys[0] in v.fields then Descend(v.fields[keys[0]], keys[1..])
    else None
  }

  /** Following a path in two legs is following it in one. */
  lemma {:induction false} DescendAppend(v: Value, a: seq<string>, b: seq<string>)
    ensures Descend(v, a + b) == (match Descend(v, a) case None => None case Some(w) => Descend(w, b))
    decreases |a|
  {
    if a == [] {
      assert a + b == b;
    } else {
      assert (a + b)[0] == a[0];
      assert (a + b)[1..] == a[1..] + b;
      if v.Obj? && a[0] in v.fields {
        DescendAppend(v.fields[a[0]], a[1..], b);
      }
    }
  }

  /** The text at the dotted `path` of the message set `messages`, or `path`
      itself when the path leads nowhere or to something other than text. */
  function GetNestedValue(messages: map<string, Value>, path: string): (r: string)
    ensures (exists t :: Descend(Obj(messages), Text.Split(path, '.')) == Some(Str(t)) && r == t)
            || (r == path && !(Descend(Obj(messages), Text.Split(path, '.')).Some?
                              && Descend(Obj(messages), Text.Split(path, '.')).value.Str?))
  {
    match Descend(Obj(messages), Text.Split(path, '.'))
    case Some(Str(t)) => t
    case _ => path
  }

  /** A tree holding `leaf` at the end of `keys` and nothing else. */
  function Nest(keys: seq<string>, leaf: Value): (r: Value)
    ensures keys != [] ==> r.Obj? && r.fields.Keys == {keys[0]}
    decreases |keys|
  {
    if keys == [] then leaf else Obj(map[keys[0] := Nest(keys[1..], leaf)])
  }

  lemma {:induction false} DescendNest(keys: seq<string>, leaf: Value)
    ensures Descend(Nest(keys, leaf), keys) == Some(leaf)
    decreases |keys|
  {
    if keys != [] {
      DescendNest(keys[1..], leaf);
    }
  }

  /** Looking up the dotted form of a path finds the text stored along it:
      joining dot-free keys with '.' is undone by the lookup's split. */
  lemma NestedLookup(keys: seq<string>, text: string)
    requires |keys| >= 1
    requires forall k <- keys :: '.' !in k
    ensures GetNestedValue(Nest(keys, Str(text)).fields, Text.Join(keys, '.')) == text
  {
    Text.SplitJoin(keys, '.');
    DescendNest(keys, Str(text));
  }

  /** A path whose first key is not in the message set comes back as it
      was written. */
  lemma MissingKeyIsPath(messages: map<string, Value>, path: string)
    requires Text.Split(path, '.')[0] !in messages
    ensures GetNestedValue(messages, path) == path
  {
  }

  /** A path that ends on a subtree rather than on text comes back as it
      was written. */
  lemma SubtreeIsPath(messages: map<string, Value>, path: string)
    requires Descend(Obj(messages), Text.Split(path, '.')).Some?
    requires Descend(Obj(messages), Text.Split(path, '.')).value.Obj?
    ensures GetNestedValue(messages, path) == path
  {
  }

  // ---------------------------------------------------------------------------
  // Parameter substitution

  /** `s.replace(/pat/g, rep)` for a pattern with no special characters:
      every occurrence of `pat`, scanning left to right and resuming after
      each match, becomes `rep`. */
  function ReplaceAll(s: string, pat: string, rep: string): (r: string)
    requires pat != []
    ensures !Text.Contains(s, pat) ==> r == s
    ensures |pat| == |rep| ==> |r| == |s|
    decreases |s|
  {
    if s == [] then []
    else if Text.StartsWith(s, pat) then rep + ReplaceAll(s[|pat|..], pat, rep)
    else [s[0]] + ReplaceAll(s[1..], pat, rep)
  }

  /** Replacing a pattern by itself changes nothing. */
  lemma {:induction false} ReplaceBySelf(s: string, pat: string)
    requires pat != []
    ensures ReplaceAll(s, pat, pat) == s
    decreases |s|
  {
    if s == [] {
    } else if Text.StartsWith(s, pat) {
      ReplaceBySelf(s[|pat|..], pat);
      assert s == pat + s[|pat|..];
    } else {
      ReplaceBySelf(s[1..], pat);
      assert s == [s[0]] + s[1..];
    }
  }

  /** Text that cannot start the pattern is copied through. */
  lemma {:induction false} ReplaceSkipsPlainText(a: string, b: string, pat: string, rep: string)
    requires pat != []
    requires pat[0] !in a
    ensures ReplaceAll(a + b, pat, rep) == a + ReplaceAll(b, pat, rep)
    decreases |a|
  {
    if a != [] {
      assert (a + b)[0] == a[0];
      assert !Text.StartsWith(a + b, pat);
      assert (a + b)[1..] == a[1..] + b;
      assert ReplaceAll(a + b, pat, rep) == [a[0]] + ReplaceAll(a[1..] + b, pat, rep);
      assert forall ch <- a[1..] :: ch in a;
      ReplaceSkipsPlainText(a[1..], b, pat, rep);
      assert a == [a[0]] + a[1..];
    } else {
      assert a + b == b;
    }
  }

  /** A placeholder after plain text is replaced, and the scan resumes after
      it. */
  lemma ReplacePlaceholder(a: string, b: string, pat: string, rep: string)
    requires pat != []
    requires pat[0] !in a
    ensures ReplaceAll(a + pat + b, pat, rep) == a + rep + ReplaceAll(b, pat, rep)
  {
    assert a + pat + b == a + (pat + b);
    ReplaceSkipsPlainText(a, pat + b, pat, rep);
    assert (pat + b)[..|pat|] == pat;
    assert (pat + b)[|pat|..] == b;
  }

  /** `parts` with `sep` between each two. */
  function JoinWith(parts: seq<string>, sep: string): (r: string)
    requires |parts| >= 1
    ensures |parts| == 1 ==> r == parts[0]
    ensures |parts| > 1 ==> |r| >= |parts[0]| + |sep| && r[..|parts[0]| + |sep|] == parts[0] + sep
    decreases |parts|
  {
    if |parts| == 1 then parts[0] else parts[0] + sep + JoinWith(parts[1..], sep)
  }

  /** Every occurrence is replaced: in a text made of pieces that cannot
      start the pattern, joined by the pattern, each joint becomes the
      replacement and the pieces stay as they are. */
  lemma {:induction false} ReplaceJoin(parts: seq<string>, pat: string, rep: string)
    requires pat != [] && |parts| >= 1
    requires forall p <- parts :: pat[0] !in p
    ensures ReplaceAll(JoinWith(parts, pat), pat, rep) == JoinWith(parts, rep)
    decreases |parts|
  {
    if |parts| == 1 {
      ReplaceSkipsPlainText(parts[0], [], pat, rep);
      assert parts[0] + [] == parts[0];
    } else {
      var rest := parts[1..];
      assert forall p <- rest :: p in parts;
      ReplaceJoin(rest, pat, rep);
      ReplacePlaceholder(parts[0], JoinWith(rest, pat), pat, rep);
    }
  }

  /** No occurrence starts in non-empty text that does not start one and
      runs on into an occurrence, when the pattern's first character does
      not recur in it. */
  lemma NoStraddle(a: string, b: string, pat: string)
    requires a != [] && pat != [] && pat[0] !in pat[1..]
    requires !Text.StartsWith(a, pat)
    requires b == [] || Text.StartsWith(b, pat)
    ensures !Text.StartsWith(a + b, pat)
  {
    var s := a + b;
    if |pat| <= |a| {
      assert s[..|pat|] == a[..|pat|];
    } else if b != [] && |pat| <= |s| {
      assert s[|a|] == b[0] == pat[0];
      assert s[..|pat|][|a|] == s[|a|];
      assert pat[|a|] == pat[1..][|a| - 1];
    }
  }

  /** Where no occurrence starts, the first character is copied and the
      scan moves on by one. */
  lemma ReplaceFirstChar(a: string, b: string, pat: string, rep: string)
    requires a != [] && pat != [] && !Text.StartsWith(a + b, pat)
    ensures ReplaceAll(a + b, pat, rep) == [a[0]] + ReplaceAll(a[1..] + b, pat, rep)
  {
    assert (a + b)[0] == a[0];
    assert (a + b)[1..] == a[1..] + b;
  }

  /** Text holding no occurrence is copied through up to the next
      occurrence, when the pattern's first character does not recur in it
      (so no occurrence can straddle the boundary). */
  lemma {:induction false} SkipsNoOccurrence(a: string, b: string, pat: string, rep: string)
    requires pat != [] && pat[0] !in pat[1..]
    requires !Text.Contains(a, pat)
    requires b == [] || Text.StartsWith(b, pat)
    ensures ReplaceAll(a + b, pat, rep) == a + ReplaceAll(b, pat, rep)
    decreases |a|
  {
    if a == [] {
      assert a + b == b;
    } else {
      NoStraddle(a, b, pat);
      ReplaceFirstChar(a, b, pat, rep);
      assert !Text.Contains(a[1..], pat);
      SkipsNoOccurrence(a[1..], b, pat, rep);
      Seqs.ConsFirst(a, ReplaceAll(b, pat, rep));
    }
  }

  /** Every occurrence is replaced: in a text made of pieces that hold no
      occurrence, joined by a pattern whose first character does not recur
      in it, each joint becomes the replacement and the pieces stay. */
  lemma {:induction false} ReplaceJoinUnique(parts: seq<string>, pat: string, rep: string)
    requires pat != [] && pat[0] !in pat[1..] && |parts| >= 1
    requires forall p <- parts :: !Text.Contains(p, pat)
    ensures ReplaceAll(JoinWith(parts, pat), pat, rep) == JoinWith(parts, rep)
    decreases |parts|
  {
    if |parts| == 1 {
      SkipsNoOccurrence(parts[0], [], pat, rep);
      assert parts[0] + [] == parts[0];
    } else {
      var rest := parts[1..];
      assert forall p <- rest :: p in parts;
      ReplaceJoinUnique(rest, pat, rep);
      ReplaceOccurrence(parts[0], JoinWith(rest, pat), pat, rep);
    }
  }

  /** An occurrence after text holding none is replaced, and the scan
      resumes after it. */
  lemma ReplaceOccurrence(a: string, b: string, pat: string, rep: string)
    requires pat != [] && pat[0] !in pat[1..]
    requires !Text.Contains(a, pat)
    ensures ReplaceAll(a + pat + b, pat, rep) == a + rep + ReplaceAll(b, pat, rep)
  {
    assert a + pat + b == a + (pat + b);
    assert (pat + b)[..|pat|] == pat;
    SkipsNoOccurrence(a, pat + b, pat, rep);
    assert (pat + b)[|pat|..] == b;
  }

  /** The placeholder of a key without '{' holds '{' only at its start. */
  lemma PlaceholderBraceOnce(key: string)
    requires '{' !in key
    ensures Placeholder(key)[0] !in Placeholder(key)[1..]
  {
    assert Placeholder(key)[1..] == key + "}";
  }

  /** Text without `{` holds no placeholder. */
  lemma {:induction false} BraceFreeHasNoPlaceholder(s: string, key: string)
    requires '{' !in s
    ensures !Text.Contains(s, Placeholder(key))
    decreases |s|
  {
    if s != [] {
      assert s[0] != '{';
      assert forall ch <- s[1..] :: ch in s;
      BraceFreeHasNoPlaceholder(s[1..], key);
    }
  }

  /** One `params` entry, its value already converted with `String`. */
  datatype Param = Param(key: string, value: string)

  /** A parameter name made of word characters that does not start with a
      digit: spliced into a regular expression it matches only itself, and
      an object's entries with such names come out in insertion order. */
  predicate IsPlainKey(key: string)
  {
    |key| > 0 && !Text.IsDigit(key[0]) && forall ch <- key :: Text.IsWordChar(ch)
  }

  /** The placeholder a parameter fills. */
  function Placeholder(key: string): (r: string)
    ensures |r| == |key| + 2 && r[0] == '{' && r[|r| - 1] == '}'
  {
    "{" + key + "}"
  }

  /** Fills the placeholders of each parameter in turn. */
  function Substitute(s: string, params: seq<Param>): (r: string)
    ensures params == [] ==> r == s
    ensures (forall p <- params :: !Text.Contains(s, Placeholder(p.key))) ==> r == s
    decreases |params|
  {
    if params == [] then s
    else
      var p := params[0];
      Substitute(ReplaceAll(s, Placeholder(p.key), p.value), params[1..])
  }

  /** Parameters are applied in entry order: the last one is replaced in
      the text the earlier ones produced. */
  lemma {:induction false} SubstituteAppend(s: string, ps: seq<Param>, p: Param)
    ensures Substitute(s, ps + [p]) == ReplaceAll(Substitute(s, ps), Placeholder(p.key), p.value)
    decreases |ps|
  {
    if ps == [] {
      assert ps + [p] == [p];
      assert [p][1..] == [];
    } else {
      assert (ps + [p])[0] == ps[0];
      assert (ps + [p])[1..] == ps[1..] + [p];
      SubstituteAppend(ReplaceAll(s, Placeholder(ps[0].key), ps[0].value), ps[1..], p);
    }
  }

  /** A parameter fills every one of its placeholders, in a text whose
      other pieces hold no '{' at all, or, when the key itself holds no '{',
      merely none of its placeholders (they may hold other ones). */
  lemma SubstituteOne(parts: seq<string>, p: Param)
    requires |parts| >= 1
    requires (forall part <- parts :: '{' !in part)
             || ('{' !in p.key && forall part <- parts :: !Text.Contains(part, Placeholder(p.key)))
    ensures Substitute(JoinWith(parts, Placeholder(p.key)), [p]) == JoinWith(parts, p.value)
  {
    var pat := Placeholder(p.key);
    if forall part <- parts :: '{' !in part {
      ReplaceJoin(parts, pat, p.value);
    } else {
      PlaceholderBraceOnce(p.key);
      ReplaceJoinUnique(parts, pat, p.value);
    }
    assert [p][1..] == [];
  }

  /** The placeholder of one plain key does not start where the
      placeholder of another one does, whatever follows it. */
  lemma PlaceholdersDiffer(k: string, key: string, after: string)
    requires IsPlainKey(k) && IsPlainKey(key) && k != key
    ensures !Text.StartsWith(Placeholder(k) + after, Placeholder(key))
  {
    var q, p := Placeholder(k), Placeholder(key);
    var s := q + after;
    if |k| == |key| {
      if |p| <= |s| {
        assert s[..|p|] == q;
        assert q[1..|q| - 1] == k && p[1..|p| - 1] == key;
      }
    } else if |k| > |key| {
      assert s[|p| - 1] == k[|key|];
      assert Text.IsWordChar(k[|key|]);
    } else if |p| <= |s| {
      assert s[|q| - 1] == '}';
      assert p[|q| - 1] == key[|k|];
      assert Text.IsWordChar(key[|k|]);
    }
  }

  /** Another parameter's placeholder, amid text without '{', holds no
      placeholder of `key`. */
  lemma {:induction false} OtherPlaceholderOnly(mid: string, k: string, after: string, key: string)
    requires IsPlainKey(k) && IsPlainKey(key) && k != key
    requires '{' !in mid && '{' !in after
    ensures !Text.Contains(mid + Placeholder(k) + after, Placeholder(key))
    decreases |mid|
  {
    var s := mid + Placeholder(k) + after;
    if mid == [] {
      assert s == Placeholder(k) + after;
      PlaceholdersDiffer(k, key, after);
      assert s[1..] == k + "}" + after;
      BraceFreeHasNoPlaceholder(s[1..], key);
    } else {
      assert s[0] == mid[0] != '{';
      assert s[1..] == mid[1..] + Placeholder(k) + after;
      assert forall ch <- mid[1..] :: ch in mid;
      OtherPlaceholderOnly(mid[1..], k, after, key);
    }
  }

  /** Two parameters with different plain keys fill a text holding one
      placeholder of each, the first before the second; a value without
      '{' cannot create a placeholder for a later parameter. */
  lemma SubstituteTwo(before: string, mid: string, after: string, p: Param, q: Param)
    requires IsPlainKey(p.key) && IsPlainKey(q.key) && p.key != q.key
    requires '{' !in before && '{' !in mid && '{' !in after && '{' !in p.value
    ensures Substitute(before + Placeholder(p.key) + mid + Placeholder(q.key) + after, [p, q])
            == before + p.value + mid + q.value + after
  {
    var first := before + p.value + mid;
    SubstituteTwoSteps(before + Placeholder(p.key) + mid + Placeholder(q.key) + after, p, q);
    FillFirst(before, mid, after, p, q.key);
    FillLast(first, after, q) by { BraceFreeConcat(before, p.value, mid); }
  }

  /** Two parameters are two replacements, in order. */
  lemma SubstituteTwoSteps(s: string, p: Param, q: Param)
    ensures Substitute(s, [p, q])
            == ReplaceAll(ReplaceAll(s, Placeholder(p.key), p.value), Placeholder(q.key), q.value)
  {
    assert [p, q][1..] == [q];
    assert [q][1..] == [];
  }

  /** The first parameter fills its own placeholder and leaves the other
      parameter's placeholder in place. */
  lemma FillFirst(before: string, mid: string, after: string, p: Param, k: string)
    requires IsPlainKey(p.key) && IsPlainKey(k) && p.key != k
    requires '{' !in before && '{' !in mid && '{' !in after
    ensures ReplaceAll(before + Placeholder(p.key) + mid + Placeholder(k) + after, Placeholder(p.key), p.value)
            == before + p.value + mid + Placeholder(k) + after
  {
    OtherPlaceholderOnly(mid, k, after, p.key);
    FillBefore(before, mid + Placeholder(k) + after, p);
    Seqs.RegroupTail(before, Placeholder(p.key), mid, Placeholder(k), after);
    Seqs.RegroupTail(before, p.value, mid, Placeholder(k), after);
  }

  /** A placeholder after text without '{' and before text holding none of
      it is filled, and the rest is kept. */
  lemma FillBefore(before: string, rest: string, p: Param)
    requires IsPlainKey(p.key) && '{' !in before
    requires !Text.Contains(rest, Placeholder(p.key))
    ensures ReplaceAll(before + Placeholder(p.key) + rest, Placeholder(p.key), p.value)
            == before + p.value + rest
  {
    PlaceholderBraceOnce(p.key);
    BraceFreeHasNoPlaceholder(before, p.key);
    ReplaceOccurrence(before, rest, Placeholder(p.key), p.value);
  }

  /** A placeholder amid text without '{' is filled. */
  lemma FillLast(first: string, after: string, q: Param)
    requires '{' !in first && '{' !in after
    ensures ReplaceAll(first + Placeholder(q.key) + after, Placeholder(q.key), q.value)
            == first + q.value + after
  {
    ReplacePlaceholder(first, after, Placeholder(q.key), q.value);
    BraceFreeHasNoPlaceholder(after, q.key);
  }

  /** Text built from pieces without '{' has none. */
  lemma BraceFreeConcat(a: string, b: string, c: string)
    requires '{' !in a && '{' !in b && '{' !in c
    ensures '{' !in a + b + c
  {
  }

  /** A parameter whose value is its own placeholder leaves the text as it
      was. */
  lemma {:induction false} SubstituteSelf(s: string, params: seq<Param>)
    requires forall p <- params :: p.value == Placeholder(p.key)
    ensures Substitute(s, params) == s
    decreases |params|
  {
    if params != [] {
      ReplaceBySelf(s, Placeholder(params[0].key));
      assert forall p <- params[1..] :: p in params;
      SubstituteSelf(s, params[1..]);
    }
  }

  /** The untranslated text of `key` in `locale`. `messages` maps each
      locale to its message set; a locale without one uses English, and with
      neither the key itself is the answer. */
  function Lookup(messages: map<string, map<string, Value>>, locale: string, key: string): (r: string)
    ensures locale in messages ==> r == GetNestedValue(messages[locale], key)
    ensures locale !in messages && "en" in messages ==> r == GetNestedValue(messages["en"], key)
    ensures locale !in messages && "en" !in messages ==> r == key
  {
    if locale in messages then GetNestedValue(messages[locale], key)
    else if "en" in messages then GetNestedValue(messages["en"], key)
    else key
  }

  /** The translation of `key` in `locale`, with the placeholders of
      `params` filled when there are any. */
  function Translate(messages: map<string, map<string, Value>>, locale: string, key: string,
                     params: Option<seq<Param>>): (r: string)
    requires params.Some? ==> forall p <- params.value :: IsPlainKey(p.key)
    ensures params.None? ==> r == Lookup(messages, locale, key)
    ensures params == Some([]) ==> r == Lookup(messages, locale, key)
    ensures params.Some? && (forall p <- params.value :: !Text.Contains(Lookup(messages, locale, key), Placeholder(p.key)))
            ==> r == Lookup(messages, locale, key)
  {
    var text := Lookup(messages, locale, key);
    match params
    case None => text
    case Some(ps) => Substitute(text, ps)
  }

  /** `t` applies its parameters in entry order: the last parameter is
      replaced in the translation with the earlier ones. */
  lemma TranslateInOrder(messages: map<string, map<string, Value>>, locale: string, key: string,
                         ps: seq<Param>, p: Param)
    requires forall q <- ps + [p] :: IsPlainKey(q.key)
    ensures forall q <- ps :: IsPlainKey(q.key)
    ensures Translate(messages, locale, key, Some(ps + [p]))
            == ReplaceAll(Translate(messages, locale, key, Some(ps)), Placeholder(p.key), p.value)
  {
    assert forall q <- ps :: q in ps + [p];
    SubstituteAppend(Lookup(messages, locale, key), ps, p);
  }

  /** `t` with one parameter replaces every `{key}` of the looked-up text by
      the value; the text between them is kept, other placeholders included. */
  lemma TranslateFillsEvery(messages: map<string, map<string, Value>>, locale: string, key: string,
                            parts: seq<string>, p: Param)
    requires IsPlainKey(p.key)
    requires |parts| >= 1 && forall part <- parts :: !Text.Contains(part, Placeholder(p.key))
    requires Lookup(messages, locale, key) == JoinWith(parts, Placeholder(p.key))
    ensures Translate(messages, locale, key, Some([p])) == JoinWith(parts, p.value)
  {
    SubstituteOne(parts, p);
  }

  /** `t` with two parameters fills a looked-up text holding one
      placeholder of each, in the parameters' order. */
  lemma TranslateFillsTwo(messages: map<string, map<string, Value>>, locale: string, key: string,
                          before: string, mid: string, after: string, p: Param, q: Param)
    requires IsPlainKey(p.key) && IsPlainKey(q.key) && p.key != q.key
    requires '{' !in before && '{' !in mid && '{' !in after && '{' !in p.value
    requires Lookup(messages, locale, key) == before + Placeholder(p.key) + mid + Placeholder(q.key) + after
    ensures Translate(messages, locale, key, Some([p, q])) == before + p.value + mid + q.value + after
  {
    SubstituteTwo(before, mid, after, p, q);
  }

  /** A message set holding only English, with `text` two levels down. */
  function EnglishOnly(text: string): map<string, map<string, Value>>
  {
    map["en" := Nest(["expense", "paidBy"], Str(text)).fields]
  }

  /** A two-level key looked up in a locale with no messages of its own
      finds the English text. */
  lemma FallbackLookup(text: string)
    ensures Lookup(EnglishOnly(text), "fr", "expense.paidBy") == text
  {
    var keys := ["expense", "paidBy"];
    assert Text.Join(keys, '.') == "expense.paidBy";
    NestedLookup(keys, text);
  }

  /** The placeholder at the end of that text is filled from the
      parameters: a French lookup of "Paid by {name}" with name "Ana" gives
      "Paid by Ana" from the English set. */
  lemma TranslateFillsPlaceholder(prefix: string, value: string)
    requires '{' !in prefix
    ensures Translate(EnglishOnly(prefix + "{name}"), "fr", "expense.paidBy", Some([Param("name", value)]))
            == prefix + value
  {
    var pat := Placeholder("name");
    assert pat == "{name}";
    var text := prefix + pat;
    FallbackLookup(text);
    FillOne(prefix, pat, value);
  }

  /** A single parameter fills its placeholder at the end of plain text. */
  lemma FillOne(prefix: string, pat: string, value: string)
    requires pat == Placeholder("name")
    requires '{' !in prefix
    ensures Substitute(prefix + pat, [Param("name", value)]) == prefix + value
  {
    ReplacePlaceholder(prefix, "", pat, value);
    assert prefix + pat == prefix + pat + "";
    assert Substitute(prefix + pat, [Param("name", value)]) == Substitute(ReplaceAll(prefix + pat, pat, value), []);
  }
}
