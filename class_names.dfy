/**
 * `classNames(...classes)` of the client: `classes.filter(Boolean).join(' ')`.
 * A string is falsy exactly when it is empty, so the filter drops the empty
 * class names and keeps the others in their order.
 */
module ClassNameHelpers {

  /** `classes.filter(Boolean)` on strings. */
  function NonEmpty(classes: seq<string>): (r: seq<string>)
    ensures |r| <= |classes|
    ensures forall i :: 0 <= i < |r| ==> r[i] != ""
    ensures forall c :: c in r <==> c in classes && c != ""
    decreases |classes|
  {
    if classes == [] then []
    else (if classes[0] == "" then [] else [classes[0]]) + NonEmpty(classes[1..])
  }

  /** `parts.join(sep)`: the parts with one separator between neighbours. */
  function Join(parts: seq<string>, sep: string): (r: string)
    decreases |parts|
  {
    if |parts| == 0 then ""
    else if |parts| == 1 then parts[0]
    else parts[0] + sep + Join(parts[1..], sep)
  }

  /** `s.split(' ')`: the pieces between single spaces; `"".split(' ')` is `[""]`. */
  function Split(s: string): (r: seq<string>)
    ensures |r| >= 1
    decreases |s|
  {
    if s == [] then [[]]
    else
      var rest := Split(s[1..]);
      if s[0] == ' ' then [[]] + rest else [[s[0]] + rest[0]] + rest[1..]
  }

  /** Sum of the lengths of the parts. */
  function TotalLength(parts: seq<string>): nat
    decreases |parts|
  {
    if parts == [] then 0 else |parts[0]| + TotalLength(parts[1..])
  }

  /** `classNames(...classes)` */
  function ClassNames(classes: seq<string>): (r: string)
    ensures r == "" <==> forall i :: 0 <= i < |classes| ==> classes[i] == ""
    ensures NonEmpty(classes) != [] ==> |r| == TotalLength(NonEmpty(classes)) + |NonEmpty(classes)| - 1
  {
    var kept := NonEmpty(classes);
    JoinLength(kept);
    NonEmptyIsEmpty(classes);
    Join(kept, " ")
  }

  /** Nothing is kept exactly when every class name is empty. */
  lemma NonEmptyIsEmpty(classes: seq<string>)
    ensures NonEmpty(classes) == [] <==> forall i :: 0 <= i < |classes| ==> classes[i] == ""
  {
    if NonEmpty(classes) == [] {
      forall i | 0 <= i < |classes| ensures classes[i] == "" {
        assert classes[i] in classes;
      }
    } else {
      var kept := NonEmpty(classes);
      assert kept[0] in kept;
    }
  }

  /** Filtering distributes over concatenation: the kept names stay in their original order. */
  lemma {:induction false} NonEmptyAppend(a: seq<string>, b: seq<string>)
    ensures NonEmpty(a + b) == NonEmpty(a) + NonEmpty(b)
    decreases |a|
  {
    if a == [] {
      assert a + b == b;
    } else {
      assert (a + b)[0] == a[0];
      assert (a + b)[1..] == a[1..] + b;
      NonEmptyAppend(a[1..], b);
    }
  }

  /** Joining non-empty parts with one space puts exactly one character between neighbours. */
  lemma {:induction false} JoinLength(parts: seq<string>)
    requires forall i :: 0 <= i < |parts| ==> parts[i] != ""
    ensures parts != [] ==> |Join(parts, " ")| == TotalLength(parts) + |parts| - 1
    ensures Join(parts, " ") == "" <==> parts == []
    decreases |parts|
  {
    if |parts| > 1 {
      JoinLength(parts[1..]);
    }
  }

  /** Appending a part to a non-empty join adds one separator and the part. */
  lemma {:induction false} JoinSnoc(parts: seq<string>, x: string, sep: string)
    requires parts != []
    ensures Join(parts + [x], sep) == Join(parts, sep) + sep + x
    decreases |parts|
  {
    if |parts| == 1 {
      assert parts + [x] == [parts[0], x];
      assert Join([x], sep) == x;
    } else {
      assert (parts + [x])[0] == parts[0];
      assert (parts + [x])[1..] == parts[1..] + [x];
      JoinSnoc(parts[1..], x, sep);
    }
  }

  /**
   * One more argument: an empty one changes nothing; a non-empty one is the
   * whole result after only empty arguments, and is otherwise appended after
   * one space. With `ClassNames([]) == ""` this fixes the result for every
   * sequence of arguments, whether or not they hold spaces.
   */
  lemma ClassNamesSnoc(classes: seq<string>, c: string)
    ensures ClassNames(classes + [c]) ==
              if c == "" then ClassNames(classes)
              else if ClassNames(classes) == "" then c
              else ClassNames(classes) + " " + c
  {
    var kept := NonEmpty(classes);
    NonEmptyAppend(classes, [c]);
    assert NonEmpty([c]) == if c == "" then [] else [c];
    JoinLength(kept);
    if c == "" {
      assert kept + [] == kept;
    } else if kept == [] {
      assert kept + [c] == [c];
    } else {
      JoinSnoc(kept, c, " ");
    }
  }

  /** Splitting a space-free prefix off a string. */
  lemma {:induction false} SplitAfterWord(x: string, t: string)
    requires ' ' !in x
    ensures Split(x + t) == [x + Split(t)[0]] + Split(t)[1..]
    decreases |x|
  {
    if x != [] {
      assert (x + t)[0] == x[0];
      assert (x + t)[1..] == x[1..] + t;
      SplitAfterWord(x[1..], t);
      assert [x[0]] + (x[1..] + Split(t)[0]) == x + Split(t)[0];
    } else {
      assert x + t == t;
      assert x + Split(t)[0] == Split(t)[0];
      assert Split(t) == [Split(t)[0]] + Split(t)[1..];
    }
  }

  /** `join(' ')` and `split(' ')` are inverse on parts without spaces. */
  lemma {:induction false} SplitJoin(parts: seq<string>)
    requires parts != []
    requires forall i :: 0 <= i < |parts| ==> ' ' !in parts[i]
    ensures Split(Join(parts, " ")) == parts
    decreases |parts|
  {
    if |parts| == 1 {
      SplitAfterWord(parts[0], []);
      assert parts[0] + [] == parts[0];
      assert Split([]) == [[]];
    } else {
      var rest := Join(parts[1..], " ");
      SplitJoin(parts[1..]);
      assert parts[0] + " " + rest == parts[0] + ([' '] + rest);
      SplitAfterWord(parts[0], [' '] + rest);
      assert ([' '] + rest)[0] == ' ' && ([' '] + rest)[1..] == rest;
      assert Split([' '] + rest) == [[]] + parts[1..];
      assert parts[0] + [] == parts[0];
      assert parts == [parts[0]] + parts[1..];
    }
  }

  /**
   * When no class name holds a space, splitting the result on spaces gives
   * back exactly the non-empty class names, in their original order.
   */
  lemma ClassNamesRoundTrip(classes: seq<string>)
    requires exists i :: 0 <= i < |classes| && classes[i] != ""
    requires forall i :: 0 <= i < |classes| ==> ' ' !in classes[i]
    ensures Split(ClassNames(classes)) == NonEmpty(classes)
  {
    var kept := NonEmpty(classes);
    assert kept != [] by {
      var i :| 0 <= i < |classes| && classes[i] != "";
      assert classes[i] in classes;
      assert classes[i] in kept;
    }
    forall i | 0 <= i < |kept| ensures ' ' !in kept[i] {
      assert kept[i] in kept;
      var j :| 0 <= j < |classes| && classes[j] == kept[i];
    }
    SplitJoin(kept);
  }
}
