/**
 * The WordPress options table that the settings page and the uninstall
 * script work on directly: rows by option name, MySQL's LIKE with its two
 * wildcards and backslash escape, wpdb::esc_like(), and the deletions
 * delete_option() and delete_transient() make.
 */
module Options {
  import opened Strings

  /** One element of a LIKE pattern: a literal character, `_` (any one character) or `%` (any run). */
  datatype Token = Lit(c: char) | AnyOne | AnyRun

  /** The pattern as LIKE reads it: a backslash makes the next character literal; a final backslash is itself. */
  function Tokens(p: string): (ts: seq<Token>)
    ensures |ts| <= |p|
    decreases |p|
  {
    if p == [] then []
    else if p[0] == '\\' && |p| >= 2 then [Lit(p[1])] + Tokens(p[2..])
    else if p[0] == '%' then [AnyRun] + Tokens(p[1..])
    else if p[0] == '_' then [AnyOne] + Tokens(p[1..])
    else [Lit(p[0])] + Tokens(p[1..])
  }

  /** Whether the whole of `s` matches the tokens. */
  predicate Matches(s: string, ts: seq<Token>)
    decreases |ts| + |s|
  {
    if ts == [] then s == []
    else match ts[0]
      case Lit(c) => s != [] && s[0] == c && Matches(s[1..], ts[1..])
      case AnyOne => s != [] && Matches(s[1..], ts[1..])
      case AnyRun => Matches(s, ts[1..]) || (s != [] && Matches(s[1..], ts))
  }

  /** `s LIKE pattern`, case-sensitively. */
  predicate Like(s: string, pattern: string) {
    Matches(s, Tokens(pattern))
  }

  /** wpdb::esc_like(): a backslash before every `_`, `%` and backslash. */
  function EscLike(s: string): (r: string)
    ensures |r| >= |s|
  {
    if s == [] then []
    else if s[0] == '_' || s[0] == '%' || s[0] == '\\' then ['\\', s[0]] + EscLike(s[1..])
    else [s[0]] + EscLike(s[1..])
  }

  /** The tokens of a run of literal characters. */
  function Literals(s: string): (ts: seq<Token>)
    ensures |ts| == |s|
    ensures forall i :: 0 <= i < |s| ==> ts[i] == Lit(s[i])
  {
    if s == [] then [] else [Lit(s[0])] + Literals(s[1..])
  }

  /** `s` starts like `p`, where a `_` in `p` stands for any one character. */
  predicate LooseStart(s: string, p: string) {
    |p| <= |s| && forall i :: 0 <= i < |p| ==> p[i] == '_' || s[i] == p[i]
  }

  /** The tokens of a pattern with no `%` and no backslash: `_` is a wildcard, the rest literal. */
  function Loose(p: string): (ts: seq<Token>)
    ensures |ts| == |p|
    ensures forall i :: 0 <= i < |p| ==> ts[i] == (if p[i] == '_' then AnyOne else Lit(p[i]))
  {
    if p == [] then [] else [if p[0] == '_' then AnyOne else Lit(p[0])] + Loose(p[1..])
  }

  /** An escaped literal reads back as that literal. */
  lemma {:induction false} TokensOfEscLike(lit: string, rest: string)
    ensures Tokens(EscLike(lit) + rest) == Literals(lit) + Tokens(rest)
    decreases |lit|
  {
    if lit != [] {
      TokensOfEscLike(lit[1..], rest);
      EscLikeCons(lit, rest);
      LiteralsCons(lit, Tokens(rest));
    } else {
      assert EscLike(lit) + rest == rest && Literals(lit) + Tokens(rest) == Tokens(rest);
    }
  }

  /** The escaped text starts with the first character, after a backslash when it is special. */
  lemma EscLikeCons(lit: string, rest: string)
    requires lit != []
    ensures var q, tail := EscLike(lit) + rest, EscLike(lit[1..]) + rest;
      if lit[0] == '_' || lit[0] == '%' || lit[0] == '\\' then
        |q| >= 2 && q[0] == '\\' && q[1] == lit[0] && q[2..] == tail
      else
        q != [] && q[0] == lit[0] && q[1..] == tail
  {
    var c, e := lit[0], EscLike(lit[1..]);
    var pre := if c == '_' || c == '%' || c == '\\' then ['\\', c] else [c];
    assert EscLike(lit) == pre + e;
    PrefixThenRest(pre, e, rest);
  }

  /** `(pre + e) + rest` is `pre` followed by `e + rest`. */
  lemma PrefixThenRest(pre: string, e: string, rest: string)
    ensures |(pre + e) + rest| == |pre| + |e + rest|
    ensures forall i :: 0 <= i < |pre| ==> ((pre + e) + rest)[i] == pre[i]
    ensures ((pre + e) + rest)[|pre|..] == e + rest
  {
  }

  lemma LiteralsCons(lit: string, rest: seq<Token>)
    requires lit != []
    ensures Literals(lit) + rest == [Lit(lit[0])] + (Literals(lit[1..]) + rest)
  {
  }

  /** Without `%` and backslashes, `_` is the only special character. */
  lemma {:induction false} TokensOfLoose(p: string, rest: string)
    requires '%' !in p && '\\' !in p
    ensures Tokens(p + rest) == Loose(p) + Tokens(rest)
    decreases |p|
  {
    if p != [] {
      assert (p + rest)[1..] == p[1..] + rest;
      assert (p + rest)[0] == p[0] && p[0] in p;
      TokensOfLoose(p[1..], rest);
      assert Tokens(p + rest) == [Loose(p)[0]] + Tokens(p[1..] + rest);
      assert Loose(p) + Tokens(rest) == [Loose(p)[0]] + (Loose(p[1..]) + Tokens(rest));
    } else {
      assert p + rest == rest && Loose(p) + Tokens(rest) == Tokens(rest);
    }
  }

  /** A trailing `%` matches anything. */
  lemma {:induction false} MatchesAnyRun(s: string)
    ensures Matches(s, [AnyRun])
    decreases |s|
  {
    if s != [] {
      MatchesAnyRun(s[1..]);
    }
  }

  /** Literal tokens match exactly their own characters, at the start. */
  lemma {:induction false} MatchesLiterals(s: string, lit: string, rest: seq<Token>)
    ensures Matches(s, Literals(lit) + rest) <==> StartsWith(s, lit) && Matches(s[|lit|..], rest)
    decreases |lit|
  {
    if lit != [] {
      assert (Literals(lit) + rest)[1..] == Literals(lit[1..]) + rest;
      if s != [] {
        MatchesLiterals(s[1..], lit[1..], rest);
        assert StartsWith(s, lit) <==> s[0] == lit[0] && StartsWith(s[1..], lit[1..]) by {
          if |lit| <= |s| {
            assert s[..|lit|] == [s[0]] + s[1..][..|lit| - 1];
            assert lit == [lit[0]] + lit[1..];
          }
        }
        if |lit| <= |s| {
          assert s[|lit|..] == s[1..][|lit[1..]|..];
        }
      }
    } else {
      assert Literals(lit) + rest == rest;
    }
  }

  /**
   * With `_` and a final `%`, a pattern accepts exactly the names at least
   * as long as it whose every non-wildcard position agrees with it.
   */
  lemma {:induction false} MatchesLoose(s: string, p: string)
    requires '%' !in p && '\\' !in p
    ensures Matches(s, Loose(p) + [AnyRun]) <==>
      |p| <= |s| && forall i :: 0 <= i < |p| ==> p[i] == '_' || s[i] == p[i]
    decreases |p|
  {
    if p == [] {
      assert Loose(p) + [AnyRun] == [AnyRun];
      MatchesAnyRun(s);
    } else {
      assert (Loose(p) + [AnyRun])[1..] == Loose(p[1..]) + [AnyRun];
      if s != [] {
        MatchesLoose(s[1..], p[1..]);
        if |p| <= |s| && forall i :: 0 <= i < |p| ==> p[i] == '_' || s[i] == p[i] {
          assert forall i :: 0 <= i < |p[1..]| ==> p[1..][i] == '_' || s[1..][i] == p[1..][i] by {
            forall i | 0 <= i < |p[1..]|
              ensures p[1..][i] == '_' || s[1..][i] == p[1..][i]
            {
              assert p[i + 1] == '_' || s[i + 1] == p[i + 1];
            }
          }
        }
        if Matches(s, Loose(p) + [AnyRun]) {
          forall i | 0 <= i < |p|
            ensures p[i] == '_' || s[i] == p[i]
          {
            if i > 0 {
              assert p[1..][i - 1] == '_' || s[1..][i - 1] == p[1..][i - 1];
            }
          }
        }
      }
    }
  }

  /** `LIKE esc_like(lit) . '%'` is exactly "starts with lit". */
  lemma EscapedPrefix(s: string, lit: string)
    ensures Like(s, EscLike(lit) + "%") <==> StartsWith(s, lit)
  {
    TokensOfEscLike(lit, "%");
    assert Tokens("%") == [AnyRun];
    MatchesLiterals(s, lit, [AnyRun]);
    if |lit| <= |s| {
      MatchesAnyRun(s[|lit|..]);
    }
  }

  /** `LIKE p . '%'` for a pattern with `_` but no `%` and no backslash. */
  lemma LoosePrefix(s: string, p: string)
    requires '%' !in p && '\\' !in p
    ensures Like(s, p + "%") <==> LooseStart(s, p)
  {
    TokensOfLoose(p, "%");
    assert Tokens("%") == [AnyRun];
    MatchesLoose(s, p);
  }

  /** The rows `DELETE ... WHERE option_name LIKE pattern` leaves. */
  function RowsNotLike(rows: map<string, string>, pattern: string): (r: map<string, string>)
    ensures forall k :: k in r <==> k in rows && !Like(k, pattern)
    ensures forall k :: k in r ==> r[k] == rows[k]
  {
    map k | k in rows && !Like(k, pattern) :: rows[k]
  }

  const TransientPrefix: string := "_transient_"
  const TimeoutPrefix: string := "_transient_timeout_"

  /**
   * Whether delete_transient() for one of `keys` removes the row: a key's
   * value row, or its timeout row when the value row is there to be deleted.
   */
  predicate OfTransients(name: string, rows: map<string, string>, keys: set<string>) {
    (StartsWith(name, TransientPrefix) && name[|TransientPrefix|..] in keys) ||
    (StartsWith(name, TimeoutPrefix) && name[|TimeoutPrefix|..] in keys && TransientPrefix + name[|TimeoutPrefix|..] in rows)
  }

  /** The rows left once every transient in `keys` is deleted, when the deletions do not disturb each other. */
  function WithoutTransients(rows: map<string, string>, keys: set<string>): (r: map<string, string>)
    ensures forall k :: k in r <==> k in rows && !OfTransients(k, rows, keys)
    ensures forall k :: k in r ==> r[k] == rows[k]
  {
    map k | k in rows && !OfTransients(k, rows, keys) :: rows[k]
  }

  /**
   * delete_transient() without an object cache: the value row goes, and the
   * timeout row goes only when the value row was there.
   */
  function TransientDeleted(rows: map<string, string>, key: string): map<string, string> {
    if TransientPrefix + key in rows then rows - {TransientPrefix + key, TimeoutPrefix + key} else rows
  }

  /** delete_transient() for each key in turn. */
  function TransientsDeleted(rows: map<string, string>, keys: seq<string>): map<string, string>
    decreases |keys|
  {
    if keys == [] then rows
    else TransientDeleted(TransientsDeleted(rows, keys[..|keys| - 1]), keys[|keys| - 1])
  }

  /** A timeout row whose value row is absent survives, unless it is itself the value row of a key. */
  lemma TimeoutKeptWithoutValue(rows: map<string, string>, keys: set<string>, key: string)
    requires TimeoutPrefix + key in rows && TransientPrefix + key !in rows
    requires "timeout_" + key !in keys
    ensures TimeoutPrefix + key in WithoutTransients(rows, keys)
    ensures WithoutTransients(rows, keys)[TimeoutPrefix + key] == rows[TimeoutPrefix + key]
  {
    var name := TimeoutPrefix + key;
    TransientNames(key, name);
    assert TimeoutPrefix == TransientPrefix + "timeout_";
    TransientNames("timeout_" + key, name);
    assert name == TransientPrefix + ("timeout_" + key);
  }

  /**
   * When no key starts with "timeout_", no deletion touches another key's
   * value row, so deleting the keys one by one, in any order and with
   * repetitions, leaves what deleting their set at once leaves.
   */
  lemma {:induction false} InTurnIsSetwise(rows: map<string, string>, keys: seq<string>)
    requires forall i :: 0 <= i < |keys| ==> !StartsWith(keys[i], "timeout_")
    ensures TransientsDeleted(rows, keys) == WithoutTransients(rows, set k | k in keys)
    decreases |keys|
  {
    if keys == [] {
      assert (set k | k in keys) == {};
    } else {
      var init, key := keys[..|keys| - 1], keys[|keys| - 1];
      InTurnIsSetwise(rows, init);
      assert (set k | k in keys) == (set k | k in init) + {key} by {
        assert keys == init + [key];
      }
      DeleteOneMore(rows, (set k | k in init), key);
    }
  }

  /** One more delete_transient() for a key that does not start with "timeout_". */
  lemma DeleteOneMore(rows: map<string, string>, done: set<string>, key: string)
    requires !StartsWith(key, "timeout_")
    ensures TransientDeleted(WithoutTransients(rows, done), key) == WithoutTransients(rows, done + {key})
  {
    var before := WithoutTransients(rows, done);
    var value, timeout := TransientPrefix + key, TimeoutPrefix + key;
    ValueRowOfKey(key);
    forall name
      ensures name in TransientDeleted(before, key) <==> name in WithoutTransients(rows, done + {key})
    {
      TransientNames(key, name);
      if name == timeout {
        TimeoutRowOfKey(rows, done, key);
      }
    }
  }

  /** The value row of a key that does not start with "timeout_" is no timeout row. */
  lemma ValueRowOfKey(key: string)
    requires !StartsWith(key, "timeout_")
    ensures !StartsWith(TransientPrefix + key, TimeoutPrefix)
    ensures (TransientPrefix + key)[|TransientPrefix|..] == key
  {
    var name := TransientPrefix + key;
    assert name[..|TransientPrefix|] == TransientPrefix;
  }

  /** The timeout row of a key is removed by the keys `done` as the value row of "timeout_" + key, or as the key's own timeout row. */
  lemma TimeoutRowOfKey(rows: map<string, string>, done: set<string>, key: string)
    ensures StartsWith(TimeoutPrefix + key, TransientPrefix) && (TimeoutPrefix + key)[|TransientPrefix|..] == "timeout_" + key
    ensures StartsWith(TimeoutPrefix + key, TimeoutPrefix) && (TimeoutPrefix + key)[|TimeoutPrefix|..] == key
    ensures OfTransients(TimeoutPrefix + key, rows, done) <==>
      "timeout_" + key in done || (key in done && TransientPrefix + key in rows)
    ensures OfTransients(TimeoutPrefix + key, rows, done + {key}) <==>
      "timeout_" + key in done || TransientPrefix + key in rows
  {
    var name := TimeoutPrefix + key;
    assert TimeoutPrefix == TransientPrefix + "timeout_";
    assert name == TransientPrefix + ("timeout_" + key);
    assert name[..|TimeoutPrefix|] == TimeoutPrefix;
    assert |"timeout_" + key| != |key|;
  }

  /** A name is the value or timeout row of exactly the key after its prefix. */
  lemma TransientNames(key: string, name: string)
    ensures name == TransientPrefix + key <==> StartsWith(name, TransientPrefix) && name[|TransientPrefix|..] == key
    ensures name == TimeoutPrefix + key <==> StartsWith(name, TimeoutPrefix) && name[|TimeoutPrefix|..] == key
  {
    if StartsWith(name, TransientPrefix) {
      assert name == name[..|TransientPrefix|] + name[|TransientPrefix|..];
    }
    if StartsWith(name, TimeoutPrefix) {
      assert name == name[..|TimeoutPrefix|] + name[|TimeoutPrefix|..];
    }
  }

  /** The options table: one value per option name. */
  class OptionsTable {
    var rows: map<string, string>

    constructor (rows: map<string, string>)
      ensures this.rows == rows
    {
      this.rows := rows;
    }

    /** delete_option(): removes the named row, and answers whether there was one. */
    method DeleteOption(name: string) returns (deleted: bool)
      modifies this
      ensures deleted <==> name in old(rows)
      ensures rows == old(rows) - {name}
    {
      deleted := name in rows;
      rows := rows - {name};
    }

    /** `DELETE FROM options WHERE option_name LIKE pattern`. */
    method DeleteWhereLike(pattern: string)
      modifies this
      ensures rows == RowsNotLike(old(rows), pattern)
    {
      rows := map k | k in rows && !Like(k, pattern) :: rows[k];
    }

    /** delete_transient() without an object cache: the timeout row is deleted only after the value row was. */
    method DeleteTransient(key: string) returns (deleted: bool)
      modifies this
      ensures deleted <==> TransientPrefix + key in old(rows)
      ensures rows == TransientDeleted(old(rows), key)
    {
      deleted := DeleteOption(TransientPrefix + key);
      if deleted {
        var timeoutDeleted := DeleteOption(TimeoutPrefix + key);
      }
    }

    /** delete_transient() for each key in turn, in the given order. */
    method DeleteTransients(keys: seq<string>)
      modifies this
      ensures rows == TransientsDeleted(old(rows), keys)
    {
      var i := 0;
      while i < |keys|
        invariant 0 <= i <= |keys|
        invariant rows == TransientsDeleted(old(rows), keys[..i])
      {
        var deleted := DeleteTransient(keys[i]);
        assert keys[..i + 1][..i] == keys[..i];
        i := i + 1;
      }
      assert keys[..i] == keys;
    }
  }
}
