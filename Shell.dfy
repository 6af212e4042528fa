/** The interactive shell's session logic: ANSI colouring of messages, and the state the
    `set`, `use` and `run` commands read and change. Console output, the prompt, module
    discovery and the command loop are not part of this model. */
module Shell {
  import opened Outcomes
  import opened PyStrings

  /** The code that ends a coloured span. */
  const Reset: string := "\U{1b}[0m"

  /** The colour names `color` knows and their ANSI codes. */
  const Palette: map<string, string> := map[
    "blue" := "\U{1b}[94m",
    "green" := "\U{1b}[92m",
    "yellow" := "\U{1b}[93m",
    "red" := "\U{1b}[91m"]

  /** `color(s, c)`: an unknown colour name leaves the text as it is; a known one puts its
      code before the text and the reset code after it. */
  function Color(s: string, c: string): (r: string)
    ensures c !in Palette ==> r == s
    ensures c in Palette ==> |r| == |s| + 9 && r[..5] == Palette[c] && r[5..|s| + 5] == s && r[|s| + 5..] == Reset
  {
    if c !in Palette then s else Palette[c] + s + Reset
  }

  /** The text inside a coloured span, when `r` is one of colour `c`. */
  function Uncolor(r: string, c: string): Option<string> {
    if c !in Palette then Some(r)
    else if |r| >= 9 && r[..5] == Palette[c] && r[|r| - 4..] == Reset then Some(r[5..|r| - 4])
    else None
  }

  /** Colouring can be undone: the text comes back unchanged. */
  lemma ColorRoundTrip(s: string, c: string)
    ensures Uncolor(Color(s, c), c) == Some(s)
  {
  }

  /** A generator or output instance, reduced to its class name and its option table. */
  datatype Component = Component(name: string, options: map<string, string>)

  /** What a command reports back; the messages themselves are console output. */
  datatype Reply =
    | Done
    | SetUsage                 // "Usage: set [option_name] [value]"
    | UseUsage                 // "Usage: use [exploit_name]"
    | NoSuchInput(name: string)
    | NoSuchOutput(name: string)
    | NoSuchOption(key: string)
    | NoSuchExploit(name: string)
    | Raised(error: Failure)   // an exception escaping the command

  /** What `run` does: refuse, or call the exploit's run with the current input and output. */
  datatype RunOutcome =
    | NoExploit
    | NoInput
    | Launch(exploit: string, input: Component, output: Option<Component>)

  /** `args.split(' ', 1)` when it has two parts: the text before the first space and the
      text after it. A ValueError (None) when there is no space. */
  function SplitKey(args: string): (kv: Option<(string, string)>)
    ensures kv.None? <==> ' ' !in args
    ensures kv.Some? ==> args == kv.value.0 + " " + kv.value.1 && ' ' !in kv.value.0
  {
    var i := FindFrom(args, ' ', 0);
    if i == -1 then None
    else
      assert args == args[..i] + " " + args[i + 1..];
      Some((args[..i], args[i + 1..]))
  }

  class ACsploit {
    /** The input generator registry: name to the option table of a fresh instance. */
    const inputs: map<string, map<string, string>>
    /** The output registry, likewise. */
    const outputs: map<string, map<string, string>>
    /** The exploit registry: path to the exploit's option table, which `set` changes in
        place and which the current exploit shares. */
    var availexps: map<string, map<string, string>>
    /** The path of the current exploit. */
    var currexp: Option<string>
    var currinputgen: Option<Component>
    var curroutput: Option<Component>
    /** The shell's own options, `input` and `output`. */
    var options: map<string, string>

    /** The current exploit is registered, and an input and an output are always set. */
    ghost predicate Valid()
      reads this
    {
      && (currexp.Some? ==> currexp.value in availexps)
      && currinputgen.Some? && curroutput.Some?
    }

    /** The session as lines 72-94 and 111 leave it: no exploit, the default input and
        output, and the `input` and `output` options at their defaults. */
    constructor (inputs: map<string, map<string, string>>, outputs: map<string, map<string, string>>,
                 exploits: map<string, map<string, string>>, initialInput: Component, initialOutput: Component)
      ensures Valid()
      ensures this.inputs == inputs && this.outputs == outputs && availexps == exploits
      ensures currexp == None && currinputgen == Some(initialInput) && curroutput == Some(initialOutput)
      ensures options == map["input" := "string", "output" := "stdout"]
    {
      this.inputs, this.outputs := inputs, outputs;
      availexps := exploits;
      currexp := None;
      currinputgen, curroutput := Some(initialInput), Some(initialOutput);
      options := map["input" := "string", "output" := "stdout"];
    }

    /** Lines 202-208: a registered path becomes the current exploit; any other name
        changes nothing. */
    method UpdateExploit(expname: string) returns (reply: Reply)
      requires Valid()
      modifies this
      ensures Valid()
      ensures expname in availexps ==> currexp == Some(expname) && reply == Done
      ensures expname !in availexps ==> currexp == old(currexp) && reply == NoSuchExploit(expname)
      ensures availexps == old(availexps) && currinputgen == old(currinputgen)
      ensures curroutput == old(curroutput) && options == old(options)
    {
      if expname in availexps {
        currexp := Some(expname);
        reply := Done;
      } else {
        reply := NoSuchExploit(expname);
      }
    }

    /** Lines 187-193: the first word of the argument names the exploit. An argument of
        whitespace only has no first word and raises IndexError. */
    method DoUse(args: string) returns (reply: Reply)
      requires Valid()
      modifies this
      ensures Valid()
      ensures args == "" ==> reply == UseUsage && currexp == old(currexp)
      ensures args != "" && FirstWord(args).None? ==> reply == Raised(IndexError) && currexp == old(currexp)
      ensures args != "" && FirstWord(args).Some? && FirstWord(args).value in availexps ==>
        currexp == Some(FirstWord(args).value) && reply == Done
      ensures args != "" && FirstWord(args).Some? && FirstWord(args).value !in availexps ==>
        currexp == old(currexp) && reply == NoSuchExploit(FirstWord(args).value)
      ensures availexps == old(availexps) && currinputgen == old(currinputgen)
      ensures curroutput == old(curroutput) && options == old(options)
    {
      if |args| > 0 {
        var word := FirstWord(args);
        if word.None? {
          return Raised(IndexError);
        }
        reply := UpdateExploit(word.value);
      } else {
        reply := UseUsage;
      }
    }

    /** Lines 149-185. `set input X` and `set output X` replace the current input or output
        by a fresh instance of a registered class and record the name; an unregistered name
        changes nothing. Any other key sets an option of the current exploit, else of the
        input, else of the output, whichever has it first. */
    method DoSet(args: string) returns (reply: Reply)
      requires Valid()
      modifies this
      ensures Valid()
      ensures SplitKey(args).None? ==> reply == SetUsage && Unchanged()
      ensures SplitKey(args).Some? ==> reply == old(SetReply(SplitKey(args).value.0, SplitKey(args).value.1))
      ensures SplitKey(args).Some? ==> var (key, val) := SplitKey(args).value;
        && (key == "input" ==> UpdatedInput(val))
        && (key == "output" ==> UpdatedOutput(val))
        && (key != "input" && key != "output" ==> UpdatedOption(key, val))
    {
      var kv := SplitKey(args);
      if kv.None? {
        return SetUsage;
      }
      var (key, val) := kv.value;
      if key == "input" {
        if val !in inputs {
          return NoSuchInput(val);
        }
        currinputgen := Some(Component(val, inputs[val]));
        options := options[key := val];
      } else if key == "output" {
        if val !in outputs {
          return NoSuchOutput(val);
        }
        curroutput := Some(Component(val, outputs[val]));
        options := options[key := val];
      } else if currexp.Some? && key in availexps[currexp.value] {
        var e := currexp.value;
        availexps := availexps[e := availexps[e][key := val]];
      } else if currinputgen.Some? && key in currinputgen.value.options {
        var gen := currinputgen.value;
        currinputgen := Some(gen.(options := gen.options[key := val]));
      } else if curroutput.Some? && key in curroutput.value.options {
        var out := curroutput.value;
        curroutput := Some(out.(options := out.options[key := val]));
      } else {
        return NoSuchOption(key);
      }
      reply := Done;
    }

    /** Nothing in the session changed. */
    twostate predicate Unchanged()
      reads this
    {
      && availexps == old(availexps) && currexp == old(currexp)
      && currinputgen == old(currinputgen) && curroutput == old(curroutput) && options == old(options)
    }

    /** The reply of `set key val` in the session before the command. */
    function SetReply(key: string, val: string): Reply
      reads this
    {
      if key == "input" then (if val in inputs then Done else NoSuchInput(val))
      else if key == "output" then (if val in outputs then Done else NoSuchOutput(val))
      else if (currexp.Some? && currexp.value in availexps && key in availexps[currexp.value])
           || (currinputgen.Some? && key in currinputgen.value.options)
           || (curroutput.Some? && key in curroutput.value.options) then Done
      else NoSuchOption(key)
    }

    /** After `set input val`: a registered name gives a fresh instance and is recorded;
        an unregistered one changes nothing. */
    twostate predicate UpdatedInput(val: string)
      reads this
    {
      if val in inputs then
        && currinputgen == Some(Component(val, inputs[val])) && options == old(options)["input" := val]
        && availexps == old(availexps) && currexp == old(currexp) && curroutput == old(curroutput)
      else Unchanged()
    }

    /** After `set output val`, likewise. */
    twostate predicate UpdatedOutput(val: string)
      reads this
    {
      if val in outputs then
        && curroutput == Some(Component(val, outputs[val])) && options == old(options)["output" := val]
        && availexps == old(availexps) && currexp == old(currexp) && currinputgen == old(currinputgen)
      else Unchanged()
    }

    /** After `set key val` for any other key: the first of the exploit, the input and the
        output that has an option `key` gets it set to `val`; without one nothing changes. */
    twostate predicate UpdatedOption(key: string, val: string)
      reads this
    {
      && currexp == old(currexp) && options == old(options)
      && if old(currexp).Some? && old(currexp).value in old(availexps) && key in old(availexps)[old(currexp).value] then
           var e := old(currexp).value;
           availexps == old(availexps)[e := old(availexps)[e][key := val]]
           && currinputgen == old(currinputgen) && curroutput == old(curroutput)
         else if old(currinputgen).Some? && key in old(currinputgen).value.options then
           var gen := old(currinputgen).value;
           currinputgen == Some(gen.(options := gen.options[key := val]))
           && availexps == old(availexps) && curroutput == old(curroutput)
         else if old(curroutput).Some? && key in old(curroutput).value.options then
           var out := old(curroutput).value;
           curroutput == Some(out.(options := out.options[key := val]))
           && availexps == old(availexps) && currinputgen == old(currinputgen)
         else Unchanged()
    }

    /** Lines 210-217: the exploit runs only when both an exploit and an input are set. */
    method DoRun() returns (o: RunOutcome)
      ensures currexp.None? ==> o == NoExploit
      ensures currexp.Some? && currinputgen.None? ==> o == NoInput
      ensures currexp.Some? && currinputgen.Some? ==> o == Launch(currexp.value, currinputgen.value, curroutput)
      ensures Valid() ==> o != NoInput
    {
      if currexp.None? {
        o := NoExploit;
      } else if currinputgen.None? {
        o := NoInput;
      } else {
        o := Launch(currexp.value, currinputgen.value, curroutput);
      }
    }
  }
}
