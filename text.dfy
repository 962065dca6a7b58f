/** Python's `str(int)`, `str.replace("\n", "\n\t")` and newline counting. */
module Text {

  function DigitChar(d: nat): (c: char)
    requires d < 10
    ensures '0' <= c <= '9'
  {
    (48 + d) as char
  }

  /** Decimal rendering of a natural number, as `f"{n}"`. */
  function NatToString(n: nat): string
    decreases n
  {
    if n < 10 then [DigitChar(n)] else NatToString(n / 10) + [DigitChar(n % 10)]
  }

  /** Decimal rendering of an integer with a leading '-' when negative, as `f"{i}"`. */
  function IntToString(i: int): string {
    if i < 0 then "-" + NatToString(-i) else NatToString(i)
  }

  /** The rendering of a natural number is a non-empty run of decimal digits. */
  lemma {:induction false} NatToStringDigits(n: nat)
    ensures |NatToString(n)| > 0
    ensures forall k :: 0 <= k < |NatToString(n)| ==> '0' <= NatToString(n)[k] <= '9'
    decreases n
  {
    if n >= 10 {
      NatToStringDigits(n / 10);
    }
  }

  /** A rendered integer is non-empty and stays on one line. */
  lemma IntToStringOneLine(i: int)
    ensures |IntToString(i)| > 0 && NewlineFree(IntToString(i))
  {
    NatToStringDigits(if i < 0 then -i else i);
  }

  /** A rendered natural number stays on one line. */
  lemma NatToStringOneLine(n: nat)
    ensures NewlineFree(NatToString(n))
  {
    NatToStringDigits(n);
  }

  predicate NewlineFree(s: string) {
    forall k :: 0 <= k < |s| ==> s[k] != '\n'
  }

  function NewlineCount(s: string): nat {
    if s == [] then 0 else (if s[0] == '\n' then 1 else 0) + NewlineCount(s[1..])
  }

  /** `s.replace("\n", "\n\t")`: every newline is followed by one extra tab. */
  function Indent(s: string): string {
    if s == [] then [] else (if s[0] == '\n' then "\n\t" else [s[0]]) + Indent(s[1..])
  }

  lemma {:induction false} NewlineCountConcat(a: string, b: string)
    ensures NewlineCount(a + b) == NewlineCount(a) + NewlineCount(b)
  {
    if a == [] {
      assert a + b == b;
    } else {
      assert (a + b)[1..] == a[1..] + b;
      NewlineCountConcat(a[1..], b);
    }
  }

  lemma {:induction false} NewlineFreeCount(s: string)
    requires NewlineFree(s)
    ensures NewlineCount(s) == 0
  {
    if s != [] {
      NewlineFreeCount(s[1..]);
    }
  }

  /** Re-indenting a child's text neither adds nor removes lines. */
  lemma {:induction false} IndentNewlines(s: string)
    ensures NewlineCount(Indent(s)) == NewlineCount(s)
  {
    if s != [] {
      var head := if s[0] == '\n' then "\n\t" else [s[0]];
      IndentNewlines(s[1..]);
      NewlineCountConcat(head, Indent(s[1..]));
      if s[0] != '\n' {
        assert NewlineCount(head) == 0 by { NewlineFreeCount(head); }
      }
    }
  }

  /** One edge line of a node's text adds one newline to those before it and to the child's own. */
  lemma EdgeNewlines(prefix: string, branch: string, child: string)
    requires NewlineFree(branch)
    ensures NewlineCount(prefix + "\n\t" + branch + " -> " + Indent(child))
         == NewlineCount(prefix) + 1 + NewlineCount(child)
  {
    var tail := Indent(child);
    assert NewlineCount("\n\t") == 1 && NewlineCount(" -> ") == 0;
    NewlineFreeCount(branch);
    IndentNewlines(child);
    NewlineCountConcat(prefix, "\n\t");
    NewlineCountConcat(prefix + "\n\t", branch);
    NewlineCountConcat(prefix + "\n\t" + branch, " -> ");
    NewlineCountConcat(prefix + "\n\t" + branch + " -> ", tail);
  }
}
