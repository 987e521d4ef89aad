/** The placeholder rewrite for Postgres: `?` becomes `$1`, `$2`, … (crates/store/src/sql.rs). */
module Placeholders {
  import opened Text

  /** The text from here on, when `n` placeholders came before. */
  function RewriteFrom(sql: string, n: nat): string {
    if sql == "" then ""
    else if sql[0] == '?' then "$" + Dec(n + 1) + RewriteFrom(sql[1..], n + 1)
    else [sql[0]] + RewriteFrom(sql[1..], n)
  }

  /** `rewrite_postgres` */
  method RewritePostgres(sql: string) returns (out: string)
    ensures out == RewriteFrom(sql, 0)
  {
    out := "";
    var n := 0;
    for i := 0 to |sql|
      invariant n >= 0 && out + RewriteFrom(sql[i..], n) == RewriteFrom(sql, 0)
    {
      var ch := sql[i];
      assert sql[i..][0] == ch && sql[i..][1..] == sql[i + 1..];
      ghost var before := out;
      if ch == '?' {
        n := n + 1;
        out := out + ['$'];
        out := out + Dec(n);
        assert before + ("$" + Dec(n) + RewriteFrom(sql[i + 1..], n)) == out + RewriteFrom(sql[i + 1..], n);
      } else {
        out := out + [ch];
        assert before + ([ch] + RewriteFrom(sql[i + 1..], n)) == out + RewriteFrom(sql[i + 1..], n);
      }
    }
    assert out + "" == out;
  }

  /** A reader that replaces the next expected `$k` by `?` and counts on. */
  function Unrewrite(out: string, k: nat): string
    decreases |out|
  {
    if out == "" then ""
    else if "$" + Dec(k) <= out then "?" + Unrewrite(out[|"$" + Dec(k)|..], k + 1)
    else [out[0]] + Unrewrite(out[1..], k)
  }

  function Placeholders(sql: string): nat {
    if sql == "" then 0 else (if sql[0] == '?' then 1 else 0) + Placeholders(sql[1..])
  }

  /**
   Counting `?` marks from `n`, no literal text reads like the mark that is due next: nowhere does
   `$k` stand in the query where the rewrite would put its own `$k`.
   */
  predicate Clear(sql: string, n: nat) {
    if sql == "" then true
    else if sql[0] == '?' then Clear(sql[1..], n + 1)
    else !("$" + Dec(n + 1) <= sql) && Clear(sql[1..], n)
  }

  /** The rewrite neither makes nor breaks a run of digits at the front of a text. */
  lemma {:induction false} DigitsStayInFront(digits: string, sql: string, n: nat)
    requires AllDigits(digits)
    ensures digits <= RewriteFrom(sql, n) <==> digits <= sql
  {
    hide Dec;
    if digits != "" && sql != "" {
      assert digits[0] in digits;
      var out := RewriteFrom(sql, n);
      if sql[0] != '?' {
        assert forall c :: c in digits[1..] ==> c in digits;
        DigitsStayInFront(digits[1..], sql[1..], n);
        PrefixByHead(digits, sql);
        PrefixByHead(digits, out);
        assert out[1..] == RewriteFrom(sql[1..], n);
      }
    }
  }

  lemma PrefixByHead(p: string, s: string)
    requires p != "" && s != ""
    ensures p <= s <==> p[0] == s[0] && p[1..] <= s[1..]
  {
    assert p == [p[0]] + p[1..] && s == [s[0]] + s[1..];
  }

  /** What the reader expects next stands in the rewritten text exactly where it stood in the query. */
  lemma MarkStaysInFront(sql: string, n: nat)
    requires sql != "" && sql[0] != '?'
    ensures "$" + Dec(n + 1) <= RewriteFrom(sql, n) <==> "$" + Dec(n + 1) <= sql
  {
    hide Dec;
    var mark, out := "$" + Dec(n + 1), RewriteFrom(sql, n);
    assert mark[1..] == Dec(n + 1) && out[1..] == RewriteFrom(sql[1..], n);
    DigitsStayInFront(Dec(n + 1), sql[1..], n);
    PrefixByHead(mark, sql);
    PrefixByHead(mark, out);
  }

  /** The reader gives the query back exactly when the query is clear. */
  lemma {:induction false} UnrewriteExactlyClear(sql: string, n: nat)
    ensures Unrewrite(RewriteFrom(sql, n), n + 1) == sql <==> Clear(sql, n)
  {
    hide Dec;
    if sql != "" {
      var rest := sql[1..];
      assert sql == [sql[0]] + rest;
      if sql[0] == '?' {
        UnrewriteExactlyClear(rest, n + 1);
        UnrewriteMark(RewriteFrom(rest, n + 1), n + 1);
        SameAfterHead('?', Unrewrite(RewriteFrom(rest, n + 1), n + 2), rest);
      } else {
        UnrewriteExactlyClear(rest, n);
        MarkStaysInFront(sql, n);
        var out := RewriteFrom(sql, n);
        if "$" + Dec(n + 1) <= out {
          assert Unrewrite(out, n + 1)[0] == '?';
        } else {
          assert out[0] == sql[0] && out[1..] == RewriteFrom(rest, n);
          SameAfterHead(sql[0], Unrewrite(RewriteFrom(rest, n), n + 1), rest);
        }
      }
    }
  }

  lemma UnrewriteMark(rest: string, k: nat)
    ensures Unrewrite("$" + Dec(k) + rest, k) == "?" + Unrewrite(rest, k + 1)
  {
    hide Dec;
    var mark := "$" + Dec(k);
    assert mark <= mark + rest && (mark + rest)[|mark|..] == rest;
  }

  lemma SameAfterHead(c: char, a: string, b: string)
    ensures [c] + a == [c] + b <==> a == b
  {
    assert ([c] + a)[1..] == a && ([c] + b)[1..] == b;
  }

  lemma {:induction false} NoDollarIsClear(sql: string, n: nat)
    requires '$' !in sql
    ensures Clear(sql, n)
  {
    hide Dec;
    if sql != "" {
      assert sql[0] in sql;
      NoDollarIsClear(sql[1..], if sql[0] == '?' then n + 1 else n);
    }
  }

  /** So on SQL without `$` nothing is lost. */
  lemma UnrewriteOfRewrite(sql: string)
    requires '$' !in sql
    ensures Unrewrite(RewriteFrom(sql, 0), 1) == sql
  {
    hide RewriteFrom, Unrewrite, Clear;
    NoDollarIsClear(sql, 0);
    UnrewriteExactlyClear(sql, 0);
  }

  /** No `?` is left. */
  lemma {:induction false} NoMarksRemain(sql: string, n: nat)
    ensures '?' !in RewriteFrom(sql, n)
  {
    if sql != "" {
      NoMarksRemain(sql[1..], if sql[0] == '?' then n + 1 else n);
    }
  }

  /** Reading a text without `?` and rewriting it again gives that text. */
  lemma {:induction false} RewriteOfUnrewrite(out: string, n: nat)
    requires '?' !in out
    ensures RewriteFrom(Unrewrite(out, n + 1), n) == out
    decreases |out|
  {
    hide Dec;
    if out != "" {
      var mark := "$" + Dec(n + 1);
      if mark <= out {
        var rest := out[|mark|..];
        assert out == mark + rest;
        RewriteOfUnrewrite(rest, n + 1);
        RewriteStep('?', Unrewrite(rest, n + 2), n);
      } else {
        assert out == [out[0]] + out[1..] && out[0] in out;
        RewriteOfUnrewrite(out[1..], n);
        RewriteStep(out[0], Unrewrite(out[1..], n + 1), n);
      }
    }
  }

  /** A query that is not clear shares its rewrite with another query: no reader could tell them apart. */
  lemma UnclearIsAmbiguous(sql: string) returns (other: string)
    requires !Clear(sql, 0)
    ensures other != sql && RewriteFrom(other, 0) == RewriteFrom(sql, 0)
  {
    hide RewriteFrom, Unrewrite, Clear;
    other := Unrewrite(RewriteFrom(sql, 0), 1);
    UnrewriteExactlyClear(sql, 0);
    NoMarksRemain(sql, 0);
    RewriteOfUnrewrite(RewriteFrom(sql, 0), 0);
  }

  /** The text splits anywhere, and the second half counts on from the first. */
  lemma {:induction false} RewriteSplits(a: string, b: string, n: nat)
    ensures RewriteFrom(a + b, n) == RewriteFrom(a, n) + RewriteFrom(b, n + Placeholders(a))
  {
    hide Dec, RewriteFrom;
    if a == "" {
      assert a + b == b;
      RewriteOfNothing(n);
    } else {
      var m := if a[0] == '?' then n + 1 else n;
      var head := if a[0] == '?' then "$" + Dec(n + 1) else [a[0]];
      assert a + b == [a[0]] + (a[1..] + b) && a == [a[0]] + a[1..];
      RewriteStep(a[0], a[1..] + b, n);
      RewriteStep(a[0], a[1..], n);
      RewriteSplits(a[1..], b, m);
      Regroup(head, RewriteFrom(a[1..], m), RewriteFrom(b, m + Placeholders(a[1..])));
    }
  }

  lemma RewriteOfNothing(n: nat)
    ensures RewriteFrom("", n) == ""
  {
  }

  lemma Regroup(a: string, b: string, c: string)
    ensures a + (b + c) == (a + b) + c
  {
  }

  lemma RewriteStep(c: char, rest: string, n: nat)
    ensures RewriteFrom([c] + rest, n)
         == if c == '?' then ("$" + Dec(n + 1)) + RewriteFrom(rest, n + 1) else [c] + RewriteFrom(rest, n)
  {
    assert ([c] + rest)[1..] == rest;
  }

  /** The k-th `?` becomes `$k`, and the text around it is rewritten on its own. */
  lemma KthBecomesDollarK(before: string, after: string)
    ensures var k := Placeholders(before) + 1;
            RewriteFrom(before + ("?" + after), 0) == RewriteFrom(before, 0) + (("$" + Dec(k)) + RewriteFrom(after, k))
  {
    hide RewriteFrom, Dec;
    RewriteSplits(before, "?" + after, 0);
    RewriteStep('?', after, Placeholders(before));
  }
}
