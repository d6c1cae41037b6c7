/** String helpers shared by the modules that look inside text. */
module Text {
  import opened Common

  /** `str::split(sep)`: always at least one part; adjacent separators give empty parts. */
  function Split<T(==)>(s: seq<T>, sep: T): (parts: seq<seq<T>>)
    ensures parts != []
    ensures forall p :: p in parts ==> sep !in p
    ensures |s| >= |parts| - 1
  {
    if s == [] then [[]]
    else
      var rest := Split(s[1..], sep);
      if s[0] == sep then [[]] + rest else [[s[0]] + rest[0]] + rest[1..]
  }

  function Join<T>(parts: seq<seq<T>>, sep: T): seq<T>
    requires parts != []
  {
    if |parts| == 1 then parts[0] else parts[0] + [sep] + Join(parts[1..], sep)
  }

  lemma {:induction false} JoinSplit<T>(s: seq<T>, sep: T)
    ensures Join(Split(s, sep), sep) == s
  {
    if s == [] {
    } else {
      JoinSplit(s[1..], sep);
      var rest := Split(s[1..], sep);
      if s[0] == sep {
        assert ([[]] + rest)[1..] == rest;
        assert [] + [sep] + s[1..] == s;
      } else {
        assert ([[s[0]] + rest[0]] + rest[1..])[1..] == rest[1..];
        if |rest| == 1 {
          assert [s[0]] + rest[0] == s;
        } else {
          assert ([s[0]] + rest[0]) + [sep] + Join(rest[1..], sep) == [s[0]] + (rest[0] + [sep] + Join(rest[1..], sep));
        }
      }
    }
  }

  /** Parts are unique: a separator-free list of parts is what splitting its own join gives back. */
  lemma {:induction false} SplitJoin<T>(parts: seq<seq<T>>, sep: T)
    requires parts != [] && forall p :: p in parts ==> sep !in p
    ensures Split(Join(parts, sep), sep) == parts
    decreases |parts|, |parts[0]|
  {
    if parts[0] == [] {
      if |parts| > 1 {
        SplitJoin(parts[1..], sep);
        assert Join(parts, sep)[1..] == Join(parts[1..], sep);
        assert [[]] + parts[1..] == parts;
      }
    } else {
      var shorter := [parts[0][1..]] + parts[1..];
      assert parts[0] in parts && parts[0][0] in parts[0];
      forall p | p in shorter
        ensures sep !in p
      {
        if p == parts[0][1..] {
          assert forall c :: c in p ==> c in parts[0];
        } else {
          assert p in parts;
        }
      }
      SplitJoin(shorter, sep);
      assert shorter[1..] == parts[1..];
      assert Join(parts, sep)[1..] == Join(shorter, sep);
      assert [parts[0][0]] + shorter[0] == parts[0];
      assert [[parts[0][0]] + shorter[0]] + shorter[1..] == parts;
    }
  }

  lemma SplitCons<T>(c: T, s: seq<T>, sep: T)
    ensures
      var rest := Split(s, sep);
      Split([c] + s, sep) == if c == sep then [[]] + rest else [[c] + rest[0]] + rest[1..]
  {
    assert ([c] + s)[1..] == s;
  }

  lemma FirstPartAppend<T>(c: T, front: seq<seq<T>>, back: seq<seq<T>>)
    requires front != []
    ensures [[c] + (front + back)[0]] + (front + back)[1..] == [[c] + front[0]] + front[1..] + back
  {
    assert (front + back)[1..] == front[1..] + back;
    Assoc([[c] + front[0]], front[1..], back);
  }

  lemma {:induction false} SplitAppend<T>(a: seq<T>, b: seq<T>, sep: T)
    ensures Split(a + [sep] + b, sep) == Split(a, sep) + Split(b, sep)
  {
    if a == [] {
      assert a + [sep] + b == [sep] + b;
      SplitCons(sep, b, sep);
    } else {
      var c, rest := a[0], a[1..];
      SplitAppend(rest, b, sep);
      SplitAppendOne(c, rest, b, sep);
      assert a == [c] + rest;
    }
  }

  lemma SplitAppendOne<T>(c: T, rest: seq<T>, b: seq<T>, sep: T)
    requires Split(rest + [sep] + b, sep) == Split(rest, sep) + Split(b, sep)
    ensures Split([c] + rest + [sep] + b, sep) == Split([c] + rest, sep) + Split(b, sep)
  {
    var front, back := Split(rest, sep), Split(b, sep);
    Assoc([c], rest, [sep]);
    Assoc([c], rest + [sep], b);
    SplitCons(c, rest, sep);
    SplitCons(c, rest + [sep] + b, sep);
    if c == sep {
      Assoc([[]], front, back);
    } else {
      FirstPartAppend(c, front, back);
    }
  }

  function LowerChar(c: char): char {
    if 'A' <= c <= 'Z' then ((c as int) + 32) as char else c
  }

  function Lower(s: string): (r: string)
    ensures |r| == |s| && forall i :: 0 <= i < |s| ==> r[i] == LowerChar(s[i])
  {
    seq(|s|, i requires 0 <= i < |s| => LowerChar(s[i]))
  }

  /** The i-th upper-case letter of the alphabet becomes the i-th lower-case one, all else stays. */
  lemma LowerLetters(c: char, i: nat)
    ensures i < 26 && c as int == 'A' as int + i ==> LowerChar(c) as int == 'a' as int + i
    ensures c < 'A' || 'Z' < c ==> LowerChar(c) == c
  {
  }
}
