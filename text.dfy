/** Character case mapping and substring search on strings, as used by the
    item search (Java's String.toLowerCase and String.contains, SQL upper and
    LIKE '%keyword%') and by the case-insensitive state-name check (Java's
    String.equalsIgnoreCase). Case mapping covers ASCII, Latin-1 and the
    basic Cyrillic block, and these mappings that cross into or out of them:
    capital I with dot above, Kelvin sign, Angstrom sign, capital sharp s and
    capital Y with diaeresis lower-case into them; dotless i and long s
    upper-case to ASCII; y with diaeresis and the micro sign upper-case out
    of Latin-1. */
module Text {

  /** Character.toLowerCase on the covered characters; others are unchanged. */
  function LowerChar(c: char): char
  {
    if 'A' <= c <= 'Z' then (c as int + 32) as char
    else if 'À' <= c <= 'Þ' && c != '×' then (c as int + 32) as char
    else if 'Ѐ' <= c <= 'Џ' then (c as int + 80) as char
    else if 'А' <= c <= 'Я' then (c as int + 32) as char
    else if c == '\U{130}' then 'i'       // capital I with dot above
    else if c == '\U{178}' then '\U{FF}'  // capital Y with diaeresis
    else if c == '\U{39C}' then '\U{3BC}' // Greek capital mu
    else if c == '\U{1E9E}' then '\U{DF}' // capital sharp s
    else if c == '\U{212A}' then 'k'      // Kelvin sign
    else if c == '\U{212B}' then '\U{E5}' // Angstrom sign
    else c
  }

  /** Character.toUpperCase on the covered characters; others are unchanged. */
  function UpperChar(c: char): char
  {
    if 'a' <= c <= 'z' then (c as int - 32) as char
    else if 'à' <= c <= 'þ' && c != '÷' then (c as int - 32) as char
    else if 'ѐ' <= c <= 'џ' then (c as int - 80) as char
    else if 'а' <= c <= 'я' then (c as int - 32) as char
    else if c == '\U{FF}' then '\U{178}'  // y with diaeresis
    else if c == '\U{B5}' then '\U{39C}'  // micro sign
    else if c == '\U{3BC}' then '\U{39C}' // Greek small mu
    else if c == '\U{131}' then 'I'       // dotless i
    else if c == '\U{17F}' then 'S'       // long s
    else c
  }

  /** What String.toLowerCase makes of one character: capital I with dot
      above becomes an i followed by a combining dot above; every other
      character becomes its Character.toLowerCase. */
  function LowerChars(c: char): (r: string)
    ensures c != '\U{130}' ==> r == [LowerChar(c)]
    ensures c == '\U{130}' ==> r == ['i', '\U{307}']
  {
    if c == '\U{130}' then ['i', '\U{307}'] else [LowerChar(c)]
  }

  /** String.toLowerCase. Only capital I with dot above changes the length. */
  function Lower(s: string): (r: string)
    ensures |r| >= |s|
    ensures r == [] <==> s == []
    ensures (forall i :: 0 <= i < |s| ==> s[i] != '\U{130}') ==>
              |r| == |s| && forall i :: 0 <= i < |s| ==> r[i] == LowerChar(s[i])
  {
    if s == [] then []
    else
      var t := Lower(s[1..]);
      assert forall i :: 1 <= i < |s| ==> s[1..][i - 1] == s[i];
      LowerChars(s[0]) + t
  }

  /** SQL upper(): the string mapped character by character. */
  function Upper(s: string): (r: string)
    ensures |r| == |s|
    ensures forall i :: 0 <= i < |s| ==> r[i] == UpperChar(s[i])
  {
    seq(|s|, i requires 0 <= i < |s| => UpperChar(s[i]))
  }

  /** Lower-casing twice is lower-casing once. */
  lemma LowerCharIdempotent(c: char)
    ensures LowerChar(LowerChar(c)) == LowerChar(c)
  {
  }

  /** Lower-casing distributes over concatenation. */
  lemma {:induction false} LowerAppend(a: string, b: string)
    ensures Lower(a + b) == Lower(a) + Lower(b)
  {
    if a == [] {
      assert a + b == b;
    } else {
      assert (a + b)[0] == a[0];
      assert (a + b)[1..] == a[1..] + b;
      LowerAppend(a[1..], b);
      calc {
        Lower(a + b);
        LowerChars(a[0]) + Lower(a[1..] + b);
        LowerChars(a[0]) + (Lower(a[1..]) + Lower(b));
        (LowerChars(a[0]) + Lower(a[1..])) + Lower(b);
      }
    }
  }

  lemma {:induction false} LowerIdempotent(s: string)
    ensures Lower(Lower(s)) == Lower(s)
  {
    if s != [] {
      var head := LowerChars(s[0]);
      LowerAppend(head, Lower(s[1..]));
      LowerCharIdempotent(s[0]);
      assert Lower(head) == head by {
        if s[0] == '\U{130}' {
          assert head == ['i'] + ['\U{307}'];
          LowerAppend(['i'], ['\U{307}']);
        } else {
          assert head == [LowerChar(s[0])];
        }
      }
      LowerIdempotent(s[1..]);
    }
  }

  /** Character comparison of String.equalsIgnoreCase: equal, equal after
      Character.toUpperCase, or equal after Character.toUpperCase and then
      Character.toLowerCase (which takes capital I with dot above to i). */
  predicate CharEqualsIgnoreCase(a: char, b: char)
  {
    a == b || UpperChar(a) == UpperChar(b) || LowerChar(UpperChar(a)) == LowerChar(UpperChar(b))
  }

  /** String.equalsIgnoreCase on non-null strings. */
  predicate EqualsIgnoreCase(a: string, b: string)
  {
    |a| == |b| && forall i :: 0 <= i < |a| ==> CharEqualsIgnoreCase(a[i], b[i])
  }

  /** A character matches its own lower-case form. */
  lemma CharEqualsLower(c: char)
    ensures CharEqualsIgnoreCase(c, LowerChar(c))
  {
  }

  /** A string without capital I with dot above matches its lower-case form. */
  lemma LowerEqualsIgnoreCase(s: string)
    requires forall i :: 0 <= i < |s| ==> s[i] != '\U{130}'
    ensures EqualsIgnoreCase(s, Lower(s))
  {
    forall i | 0 <= i < |s| ensures CharEqualsIgnoreCase(s[i], Lower(s)[i]) {
      CharEqualsLower(s[i]);
    }
  }

  /** `t` occurs in `s` starting at position `i`. */
  predicate OccursAt(s: string, t: string, i: int)
  {
    0 <= i && i + |t| <= |s| && s[i..i + |t|] == t
  }

  /** String.contains: `t` occurs somewhere in `s` (the empty string occurs
      everywhere). */
  function Contains(s: string, t: string): (r: bool)
    ensures r <==> exists i :: OccursAt(s, t, i)
  {
    if |t| <= |s| && s[..|t|] == t then
      assert OccursAt(s, t, 0);
      true
    else if s == [] then
      assert forall i :: !OccursAt(s, t, i);
      false
    else
      var r := Contains(s[1..], t);
      assert forall i :: OccursAt(s[1..], t, i) <==> OccursAt(s, t, i + 1) by {
        forall i ensures OccursAt(s[1..], t, i) <==> OccursAt(s, t, i + 1) {
          if 0 <= i && i + |t| <= |s[1..]| {
            assert s[1..][i..i + |t|] == s[i + 1..i + 1 + |t|];
          }
        }
      }
      assert !OccursAt(s, t, 0);
      assert r ==> exists i :: OccursAt(s, t, i) by {
        if r {
          var i :| OccursAt(s[1..], t, i);
          assert OccursAt(s, t, i + 1);
        }
      }
      assert (exists i :: OccursAt(s, t, i)) ==> r by {
        if exists i :: OccursAt(s, t, i) {
          var i :| OccursAt(s, t, i);
          assert i != 0;
          assert OccursAt(s[1..], t, i - 1);
        }
      }
      r
  }
}
