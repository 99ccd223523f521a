/** Lists kept in annotations: the controls and standards that a rule refers to, joined with a
    separator, each entered once. */
module AnnotationLists {

  // As strings.Split does it: the parts between separators, one more than there are of these.
  function Split(s: string, sep: char): (parts: seq<string>)
    ensures parts != []
    ensures forall part | part in parts :: sep !in part
  {
    if s == [] then [""]
    else
      var rest := Split(s[1..], sep);
      if s[0] == sep then [""] + rest
      else
        assert forall part | part in rest[1..] :: part in rest;
        [[s[0]] + rest[0]] + rest[1..]
  }

  function Join(parts: seq<string>, sep: char): string {
    if parts == [] then ""
    else if |parts| == 1 then parts[0]
    else parts[0] + [sep] + Join(parts[1..], sep)
  }

  lemma {:induction false} SplitPart(part: string, sep: char)
    requires sep !in part
    ensures Split(part, sep) == [part]
  {
    if part == [] {
    } else {
      assert part[0] in part && part == [part[0]] + part[1..];
      SplitPart(part[1..], sep);
    }
  }

  lemma {:induction false} SplitFirst(part: string, rest: string, sep: char)
    requires sep !in part
    ensures Split(part + [sep] + rest, sep) == [part] + Split(rest, sep)
  {
    var s := part + [sep] + rest;
    if part == [] {
      assert s[1..] == rest;
    } else {
      assert part[0] in part && part == [part[0]] + part[1..];
      assert s[0] == part[0] && s[1..] == part[1..] + [sep] + rest;
      SplitFirst(part[1..], rest, sep);
    }
  }

  // Parts without the separator can be got back.
  lemma {:induction false} SplitJoin(parts: seq<string>, sep: char)
    requires parts != [] && forall part | part in parts :: sep !in part
    ensures Split(Join(parts, sep), sep) == parts
  {
    if |parts| == 1 {
      SplitPart(parts[0], sep);
    } else {
      SplitJoin(parts[1..], sep);
      SplitFirst(parts[0], Join(parts[1..], sep), sep);
    }
  }

  function Appended(value: string, item: string, sep: char): string {
    if item in Split(value, sep) then value else Join(Split(value, sep) + [item], sep)
  }

  function WithItem(annotations: map<string, string>, key: string, item: string, sep: char): map<string, string> {
    annotations[key := if key in annotations then Appended(annotations[key], item, sep) else item]
  }

  class Rule {
    var annotations: map<string, string>

    constructor ()
      ensures annotations == map[]
    {
      annotations := map[];
    }

    method AppendKeyWithSep(key: string, item: string, sep: char)
      modifies this
      ensures annotations == WithItem(old(annotations), key, item, sep)
    {
      if key !in annotations {
        annotations := annotations[key := item];
        return;
      }
      var curList := Split(annotations[key], sep);
      for i := 0 to |curList|
        invariant item !in curList[..i]
        invariant unchanged(this)
      {
        if curList[i] == item {
          assert annotations == annotations[key := annotations[key]];
          return;
        }
      }
      assert curList[..|curList|] == curList;
      annotations := annotations[key := Join(curList + [item], sep)];
    }
  }

  /******* What the list holds *******/

  function ListOf(annotations: map<string, string>, key: string, sep: char): seq<string> {
    if key in annotations then Split(annotations[key], sep) else []
  }

  // An item without the separator is entered once, at the end.
  lemma ItemEnteredOnce(annotations: map<string, string>, key: string, item: string, sep: char)
    requires sep !in item
    ensures ListOf(WithItem(annotations, key, item, sep), key, sep) ==
            var list := ListOf(annotations, key, sep); if item in list then list else list + [item]
  {
    if key in annotations {
      var parts := Split(annotations[key], sep);
      if item !in parts {
        SplitJoin(parts + [item], sep);
      }
    } else {
      SplitPart(item, sep);
    }
  }

  function WithItems(annotations: map<string, string>, key: string, items: seq<string>, sep: char):
    map<string, string>
  {
    if items == [] then annotations
    else WithItem(WithItems(annotations, key, items[..|items| - 1], sep), key, items[|items| - 1], sep)
  }

  function FirstOccurrences(items: seq<string>): (list: seq<string>)
    ensures forall i :: i in list <==> i in items
    ensures forall j, k | 0 <= j < k < |list| :: list[j] != list[k]
  {
    if items == [] then []
    else
      var init, last := items[..|items| - 1], items[|items| - 1];
      assert items == init + [last];
      var list := FirstOccurrences(init);
      if last in init then list else list + [last]
  }

  // However many references a rule has, each control is listed once, in the order of first mention.
  lemma {:induction false} ListsFirstOccurrences(annotations: map<string, string>, key: string, items: seq<string>,
                                                 sep: char)
    requires key !in annotations && forall i | i in items :: sep !in i
    ensures ListOf(WithItems(annotations, key, items, sep), key, sep) == FirstOccurrences(items)
  {
    if items == [] {
    } else {
      var init, last := items[..|items| - 1], items[|items| - 1];
      assert items == init + [last];
      ListsFirstOccurrences(annotations, key, init, sep);
      ItemEnteredOnce(WithItems(annotations, key, init, sep), key, last, sep);
    }
  }

  lemma {:induction false} JoinLength(parts: seq<string>, item: string, sep: char)
    requires parts != []
    ensures |Join(parts + [item], sep)| == |Join(parts, sep)| + 1 + |item|
  {
    if |parts| == 1 {
      assert (parts + [item])[1..] == [item];
    } else {
      assert (parts + [item])[1..] == parts[1..] + [item];
      JoinLength(parts[1..], item, sep);
    }
  }

  lemma {:induction false} JoinSplit(s: string, sep: char)
    ensures Join(Split(s, sep), sep) == s
  {
    if s == [] {
    } else {
      var rest := Split(s[1..], sep);
      JoinSplit(s[1..], sep);
      var parts := Split(s, sep);
      if s[0] == sep {
        assert parts[1..] == rest;
      } else {
        assert parts[1..] == rest[1..];
      }
    }
  }

  // Entering an item again changes nothing, exactly when it does not contain the separator: one
  // that does is never found in the list, and entered each time.
  lemma EnteredOnceExactlyWithoutSeparator(annotations: map<string, string>, key: string, item: string, sep: char)
    ensures var once := WithItem(annotations, key, item, sep);
            WithItem(once, key, item, sep) == once <==> sep !in item
  {
    var once := WithItem(annotations, key, item, sep);
    if sep !in item {
      ItemEnteredOnce(annotations, key, item, sep);
      assert item in Split(once[key], sep);
    } else {
      var parts := Split(once[key], sep);
      JoinSplit(once[key], sep);
      JoinLength(parts, item, sep);
      assert WithItem(once, key, item, sep)[key] == Join(parts + [item], sep);
    }
  }
}
