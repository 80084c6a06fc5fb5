/** The options of one command: read from the command line by a loop that fills a map and a
    set, and proved to be the inverse of writing them down. */
module OptionParser {
  import opened Wrappers
  import opened Texts

  datatype Error = Duplicated | ValueMissing | InvalidOption | UnknownOption

  type Parsed = (map<string, string>, set<string>)

  predicate LooksLikeOption(value: string) {
    "--" <= value
  }

  /** Reads the values from the front, on top of what was read before. */
  function ParseRest(values: seq<string>, names: set<string>, flagNames: set<string>, options: map<string, string>, flags: set<string>)
    : Result<Parsed, Error>
    decreases |values|
  {
    if values == [] then Ok((options, flags))
    else if values[0] in flagNames then
      if values[0] in flags then Err(Duplicated)
      else ParseRest(values[1..], names, flagNames, options, flags + {values[0]})
    else if values[0] in names then
      if |values| == 1 || LooksLikeOption(values[1]) then Err(ValueMissing)
      else if values[0] in options then Err(Duplicated)
      else ParseRest(values[2..], names, flagNames, options[values[0] := values[1]], flags)
    else match SplitOnce(values[0], '=')
      case None => Err(UnknownOption)
      case Some((name, value)) =>
        if name !in names || value == "" then Err(InvalidOption)
        else if name in options then Err(Duplicated)
        else ParseRest(values[1..], names, flagNames, options[name := value], flags)
  }

  method ParseOptions(values: seq<string>, names: set<string>, flagNames: set<string>) returns (result: Result<Parsed, Error>)
    ensures result == ParseRest(values, names, flagNames, map[], {})
  {
    var options: map<string, string> := map[];
    var flags: set<string> := {};
    var index := 0;
    while index < |values|
      invariant 0 <= index <= |values|
      invariant ParseRest(values[index..], names, flagNames, options, flags) == ParseRest(values, names, flagNames, map[], {})
    {
      var value := values[index];
      assert values[index..][0] == value && values[index..][1..] == values[index + 1..];
      if value in flagNames {
        if value in flags {
          return Err(Duplicated);
        }
        flags := flags + {value};
      } else if value in names {
        index := index + 1;
        if index == |values| || LooksLikeOption(values[index]) {
          return Err(ValueMissing);
        }
        assert values[index - 1..][1] == values[index] && values[index - 1..][2..] == values[index + 1..];
        if value in options {
          return Err(Duplicated);
        }
        options := options[value := values[index]];
      } else {
        var parts := SplitOnce(value, '=');
        if parts.None? {
          return Err(UnknownOption);
        }
        var (name, optionValue) := parts.value;
        if name !in names || optionValue == "" {
          return Err(InvalidOption);
        }
        if name in options {
          return Err(Duplicated);
        }
        options := options[name := optionValue];
      }
      index := index + 1;
    }
    result := Ok((options, flags));
  }

  // Writing options down

  /** One option as written: a flag, or a value after a space or an equals sign. */
  datatype Item = Flag(name: string) | Spaced(name: string, value: string) | Joined(name: string, value: string)

  function Written(item: Item): seq<string> {
    match item
    case Flag(name) => [name]
    case Spaced(name, value) => [name, value]
    case Joined(name, value) => [name + "=" + value]
  }

  function Render(items: seq<Item>): seq<string> {
    if items == [] then [] else Written(items[0]) + Render(items[1..])
  }

  /** No name is both an option and a flag, and none contains an equals sign. */
  predicate ProperNames(names: set<string>, flagNames: set<string>) {
    names !! flagNames && forall name <- names + flagNames :: '=' !in name
  }

  /** The item can be written: a value after a space must not look like an option, and a
      value after an equals sign must not be empty. */
  predicate IsWritable(item: Item, names: set<string>, flagNames: set<string>) {
    match item
    case Flag(name) => name in flagNames
    case Spaced(name, value) => name in names && !("--" <= value)
    case Joined(name, value) => name in names && value != ""
  }

  predicate AreWritable(items: seq<Item>, names: set<string>, flagNames: set<string>) {
    forall item <- items :: IsWritable(item, names, flagNames)
  }

  predicate DistinctNames(items: seq<Item>) {
    forall i, j | 0 <= i < j < |items| :: items[i].name != items[j].name
  }

  function WithOption(options: map<string, string>, item: Item): map<string, string> {
    if item.Flag? then options else options[item.name := item.value]
  }

  function WithFlag(flags: set<string>, item: Item): set<string> {
    if item.Flag? then flags + {item.name} else flags
  }

  /** What the items say, on top of what was said before. */
  function Collected(items: seq<Item>, options: map<string, string>, flags: set<string>): Parsed {
    if items == [] then (options, flags)
    else Collected(items[1..], WithOption(options, items[0]), WithFlag(flags, items[0]))
  }

  /** No name is repeated, among the items or from before. */
  predicate NothingRepeated(items: seq<Item>, options: map<string, string>, flags: set<string>) {
    DistinctNames(items) && forall item <- items :: item.name !in options && item.name !in flags
  }

  lemma OneItem(item: Item, rest: seq<string>, names: set<string>, flagNames: set<string>, options: map<string, string>, flags: set<string>)
    requires ProperNames(names, flagNames) && IsWritable(item, names, flagNames)
    requires options.Keys <= names && flags <= flagNames
    ensures ParseRest(Written(item) + rest, names, flagNames, options, flags)
         == if item.name in options || item.name in flags then Err(Duplicated)
            else ParseRest(rest, names, flagNames, WithOption(options, item), WithFlag(flags, item))
  {
    var values := Written(item) + rest;
    match item
    case Flag(name) => assert values[1..] == rest;
    case Spaced(name, value) => assert values[2..] == rest;
    case Joined(name, value) =>
      assert name + "=" + value == name + ['='] + value;
      SplitOnceInvertsJoin(name, '=', value);
      EqualsInside(name, value);
      assert values[1..] == rest;
  }

  lemma EqualsInside(name: string, value: string)
    ensures '=' in name + "=" + value
  {
    assert (name + "=" + value)[|name|] == '=';
  }

  lemma NextRepeated(items: seq<Item>, options: map<string, string>, flags: set<string>)
    requires items != [] && items[0].name !in options && items[0].name !in flags
    ensures NothingRepeated(items, options, flags)
       <==> NothingRepeated(items[1..], WithOption(options, items[0]), WithFlag(flags, items[0]))
  {
    var tail := items[1..];
    assert forall k | 1 <= k < |items| :: items[k] == tail[k - 1];
    assert forall k | 0 <= k < |tail| :: tail[k] == items[k + 1];
    if NothingRepeated(tail, WithOption(options, items[0]), WithFlag(flags, items[0])) {
      forall i, j | 0 <= i < j < |items| ensures items[i].name != items[j].name {
        assert items[j] == tail[j - 1] && tail[j - 1] in tail;
        if i > 0 {
          assert items[i] == tail[i - 1];
        }
      }
      forall item <- items ensures item.name !in options && item.name !in flags {
        assert item == items[0] || item in tail;
      }
    }
    if NothingRepeated(items, options, flags) {
      forall item <- tail ensures item.name !in WithOption(options, items[0]) && item.name !in WithFlag(flags, items[0]) {
        var k :| 0 <= k < |tail| && tail[k] == item;
        assert items[0].name != items[k + 1].name;
      }
    }
  }

  /** Parsing what was written gives what was meant, or reports a duplicate, in whatever
      spellings the repeated name comes. */
  lemma {:induction false} ParsingInvertsWriting(items: seq<Item>, names: set<string>, flagNames: set<string>, options: map<string, string>, flags: set<string>)
    requires ProperNames(names, flagNames) && AreWritable(items, names, flagNames)
    requires options.Keys <= names && flags <= flagNames
    ensures ParseRest(Render(items), names, flagNames, options, flags)
         == if NothingRepeated(items, options, flags) then Ok(Collected(items, options, flags)) else Err(Duplicated)
  {
    if items != [] {
      var item := items[0];
      OneItem(item, Render(items[1..]), names, flagNames, options, flags);
      if item.name !in options && item.name !in flags {
        NextRepeated(items, options, flags);
        ParsingInvertsWriting(items[1..], names, flagNames, WithOption(options, item), WithFlag(flags, item));
      }
    }
  }

  /** Every accepted command line is some items written down, without repeats. */
  lemma {:induction false} AcceptedIsWritten(values: seq<string>, names: set<string>, flagNames: set<string>, options: map<string, string>, flags: set<string>)
    requires ProperNames(names, flagNames) && options.Keys <= names && flags <= flagNames
    requires ParseRest(values, names, flagNames, options, flags).Ok?
    ensures exists items: seq<Item> :: Explains(items, values, names, flagNames, options, flags)
    decreases |values|
  {
    if values == [] {
      assert Explains([], values, names, flagNames, options, flags);
    } else {
      var item := FirstItem(values, names, flagNames);
      var used := |Written(item)|;
      FirstItemIsWritten(values, names, flagNames, options, flags);
      AcceptedIsWritten(values[used..], names, flagNames, WithOption(options, item), WithFlag(flags, item));
      var rest: seq<Item> :|
        Explains(rest, values[used..], names, flagNames, WithOption(options, item), WithFlag(flags, item));
      var items := [item] + rest;
      assert items[1..] == rest;
      assert Render(items) == Written(item) + Render(rest);
      NextRepeated(items, options, flags);
      assert Explains(items, values, names, flagNames, options, flags);
    }
  }

  /** The values are these items written down, none of them a repetition. */
  ghost predicate Explains(
    items: seq<Item>, values: seq<string>, names: set<string>, flagNames: set<string>, options: map<string, string>, flags: set<string>)
  {
    Render(items) == values && AreWritable(items, names, flagNames) && NothingRepeated(items, options, flags)
  }

  /** The item that an accepted command line begins with. */
  function FirstItem(values: seq<string>, names: set<string>, flagNames: set<string>): Item
    requires values != []
  {
    if values[0] in flagNames then Flag(values[0])
    else if values[0] in names && |values| > 1 then Spaced(values[0], values[1])
    else match SplitOnce(values[0], '=')
      case None => Flag(values[0])
      case Some((name, value)) => Joined(name, value)
  }

  lemma FirstItemIsWritten(values: seq<string>, names: set<string>, flagNames: set<string>, options: map<string, string>, flags: set<string>)
    requires values != [] && ProperNames(names, flagNames) && options.Keys <= names && flags <= flagNames
    requires ParseRest(values, names, flagNames, options, flags).Ok?
    ensures var item := FirstItem(values, names, flagNames);
            && IsWritable(item, names, flagNames) && item.name !in options && item.name !in flags
            && |Written(item)| <= |values| && values[..|Written(item)|] == Written(item)
            && ParseRest(values[|Written(item)|..], names, flagNames, WithOption(options, item), WithFlag(flags, item)).Ok?
  {
  }

  /** The items spell exactly this map and these flags, each name once, in any order and
      with either spelling of a value. */
  ghost predicate Spells(items: seq<Item>, options: map<string, string>, flags: set<string>) {
    && DistinctNames(items)
    && (forall item <- items :: if item.Flag? then item.name in flags
                                else item.name in options && options[item.name] == item.value)
    && (forall name <- options.Keys + flags :: exists item <- items :: item.name == name && (item.Flag? <==> name in flags))
  }

  lemma {:induction false} CollectedSays(items: seq<Item>, options: map<string, string>, flags: set<string>)
    requires NothingRepeated(items, options, flags)
    ensures var (o, f) := Collected(items, options, flags);
            && (forall name :: name in o <==> name in options || exists item <- items :: !item.Flag? && item.name == name)
            && (forall name :: name in f <==> name in flags || exists item <- items :: item.Flag? && item.name == name)
            && (forall name <- options :: o[name] == options[name])
            && (forall item <- items :: !item.Flag? ==> o[item.name] == item.value)
  {
    if items != [] {
      NextRepeated(items, options, flags);
      CollectedSays(items[1..], WithOption(options, items[0]), WithFlag(flags, items[0]));
      assert forall item :: item in items <==> item == items[0] || item in items[1..];
    }
  }

  /** So any map and any flags, written in any order and either spelling, parse back to
      themselves. */
  lemma ParsingGivesBack(items: seq<Item>, names: set<string>, flagNames: set<string>, options: map<string, string>, flags: set<string>)
    requires ProperNames(names, flagNames) && AreWritable(items, names, flagNames)
    requires options.Keys <= names && flags <= flagNames && Spells(items, options, flags)
    ensures ParseRest(Render(items), names, flagNames, map[], {}) == Ok((options, flags))
  {
    ParsingInvertsWriting(items, names, flagNames, map[], {});
    CollectedSays(items, map[], {});
    var (o, f) := Collected(items, map[], {});
    forall name ensures name in o <==> name in options {
      if name in options {
        assert name in options.Keys + flags;
      }
    }
    forall name ensures name in f <==> name in flags {
      if name in flags {
        assert name in options.Keys + flags;
      }
    }
    assert o == options && f == flags;
  }

  // What is reported

  lemma {:induction false} ThenTheRestIsRead(items: seq<Item>, rest: seq<string>, names: set<string>, flagNames: set<string>, options: map<string, string>, flags: set<string>)
    returns (o: map<string, string>, f: set<string>)
    requires ProperNames(names, flagNames) && AreWritable(items, names, flagNames)
    requires options.Keys <= names && flags <= flagNames && NothingRepeated(items, options, flags)
    ensures ParseRest(Render(items) + rest, names, flagNames, options, flags) == ParseRest(rest, names, flagNames, o, f)
  {
    if items == [] {
      assert Render(items) + rest == rest;
      o, f := options, flags;
    } else {
      var item := items[0];
      assert Render(items) + rest == Written(item) + (Render(items[1..]) + rest);
      OneItem(item, Render(items[1..]) + rest, names, flagNames, options, flags);
      NextRepeated(items, options, flags);
      o, f := ThenTheRestIsRead(items[1..], rest, names, flagNames, WithOption(options, item), WithFlag(flags, item));
    }
  }

  /** What is at fault with `values`: a name without a value, no name at all, a name that is
      none of the options, or an empty value. */
  ghost predicate IsFault(values: seq<string>, names: set<string>, flagNames: set<string>, error: Error) {
    && values != [] && values[0] !in flagNames
    && match error
       case ValueMissing => values[0] in names && (|values| == 1 || "--" <= values[1])
       case UnknownOption => values[0] !in names && '=' !in values[0]
       case InvalidOption =>
         values[0] !in names && '=' in values[0]
         && forall name: string, value: string | values[0] == name + ['='] + value && '=' !in name :: name !in names || value == ""
       case Duplicated => false
  }

  /** After written items without repeats, the first fault is what is reported. */
  lemma FirstFaultIsReported(items: seq<Item>, rest: seq<string>, names: set<string>, flagNames: set<string>, error: Error)
    requires ProperNames(names, flagNames) && AreWritable(items, names, flagNames) && DistinctNames(items)
    requires IsFault(rest, names, flagNames, error)
    ensures ParseRest(Render(items) + rest, names, flagNames, map[], {}) == Err(error)
  {
    var o, f := ThenTheRestIsRead(items, rest, names, flagNames, map[], {});
    if error.InvalidOption? {
      var parts := SplitOnce(rest[0], '=').value;
      assert rest[0] == parts.0 + ['='] + parts.1;
    }
  }
}
