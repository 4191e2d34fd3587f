/** app/utils.py: the project scaffolding written around a generated app.
    The file system is a map from a file's name (relative to the target
    directory) to its contents. */
module Utils {
  import opened Text

  const StreamlitHeader: string :=
    "import streamlit as st\n"
    + "st.set_page_config(page_title='AI App Builder', layout='wide')\n"
    + "\n"
    + "# Generated with AI App Builder\n"

  const GradioHeader: string := "# Generated with AI App Builder\n"

  const GradioSkeleton: string :=
    "import gradio as gr\n"
    + "\n"
    + "def run():\n"
    + "    return 'Replace this with your logic.'\n"
    + "\n"
    + "demo = gr.Interface(fn=run, inputs=[], outputs='text', title='Your Generated App')\n"
    + "demo.launch()\n"

  const TripleQuote: string := "'''"
  const EscapedTripleQuote: string := "\\'\\'\\'"

  /** Python's `code.replace("'''", "\\'\\'\\'")`: occurrences are replaced
      left to right without overlapping. */
  function EscapeTripleQuotes(code: string): (r: string)
    ensures |code| <= |r| <= 2 * |code|
    ensures r == [] <==> code == []
    decreases |code|
  {
    if TripleQuote <= code then EscapedTripleQuote + EscapeTripleQuotes(code[3..])
    else if code == [] then []
    else [code[0]] + EscapeTripleQuotes(code[1..])
  }

  /** Every `'''` in `r` is preceded by a backslash, so none of them can close
      a `'''`-quoted Python string. */
  ghost predicate NoBareTripleQuote(r: string)
  {
    forall i :: OccursAt(r, TripleQuote, i) ==> 0 < i && r[i - 1] == '\\'
  }

  /** The first character of the escaped text. */
  lemma EscapeHead(code: string)
    requires |code| > 0
    ensures |EscapeTripleQuotes(code)| > 0
    ensures EscapeTripleQuotes(code)[0] == if TripleQuote <= code then '\\' else code[0]
  {
  }

  /** The escaped text never starts with a triple quote: a quote that is not
      the start of a triple quote is followed by at most one more. */
  lemma NoTripleQuoteAtStart(code: string)
    ensures !OccursAt(EscapeTripleQuotes(code), TripleQuote, 0)
  {
    var r := EscapeTripleQuotes(code);
    if TripleQuote <= code {
      assert r[0] == '\\';
    } else if code != [] && code[0] == '\'' {
      var e := EscapeTripleQuotes(code[1..]);
      assert r == ['\''] + e;
      if |code| >= 2 {
        EscapeHead(code[1..]);
      }
      if |code| >= 2 && code[1] == '\'' {
        assert !(TripleQuote <= code[1..]) by {
          assert |code| >= 4 ==> code[1..][..3] == code[1..4];
        }
        assert e == ['\''] + EscapeTripleQuotes(code[2..]);
        if |code| >= 3 {
          EscapeHead(code[2..]);
          assert code[2] != '\'';
          assert r[2] != '\'';
        }
      }
    } else if code != [] {
      assert r[0] == code[0];
    }
  }

  /** A triple quote that starts inside the second part of a concatenation
      is escaped there when that part has no bare triple quote. */
  lemma NoBareInSuffix(h: string, e: string, i: int)
    requires NoBareTripleQuote(e) && |h| <= i && OccursAt(h + e, TripleQuote, i)
    ensures 0 < i && (h + e)[i - 1] == '\\'
  {
    assert e[i - |h|..i - |h| + 3] == (h + e)[i..i + 3];
    assert OccursAt(e, TripleQuote, i - |h|);
  }

  /** After escaping, no triple quote is left unescaped. */
  lemma {:induction false} EscapeLeavesNoBareTripleQuote(code: string)
    ensures NoBareTripleQuote(EscapeTripleQuotes(code))
    decreases |code|
  {
    if code != [] {
      var r := EscapeTripleQuotes(code);
      EscapeStep(code);
      if TripleQuote <= code {
        var e := EscapeTripleQuotes(code[3..]);
        EscapeLeavesNoBareTripleQuote(code[3..]);
        forall i | OccursAt(r, TripleQuote, i)
          ensures 0 < i && r[i - 1] == '\\'
        {
          if i >= 6 {
            NoBareInSuffix(EscapedTripleQuote, e, i);
          } else {
            assert r[i] == '\'' && r[i + 1] == '\'';
            assert i == 5;
          }
        }
      } else {
        var e := EscapeTripleQuotes(code[1..]);
        EscapeLeavesNoBareTripleQuote(code[1..]);
        NoTripleQuoteAtStart(code);
        forall i | OccursAt(r, TripleQuote, i)
          ensures 0 < i && r[i - 1] == '\\'
        {
          NoBareInSuffix([code[0]], e, i);
        }
      }
    }
  }

  /** Code with no triple quote in it is embedded unchanged, whatever
      single or double quotes it has. */
  lemma {:induction false} EscapeWithoutTriple(code: string)
    requires !Contains(code, TripleQuote)
    ensures EscapeTripleQuotes(code) == code
    decreases |code|
  {
    if code != [] {
      EscapeStep(code);
      EscapeWithoutTriple(code[1..]);
    }
  }

  /** The first triple quote is replaced and everything before it is kept:
      split at its first triple quote, code escapes as the text before it,
      the escaped triple quote, and the rest escaped in turn. */
  lemma EscapeAtFirst(a: string, b: string)
    requires !Contains(a, TripleQuote) && (a == [] || a[|a| - 1] != '\'')
    ensures EscapeTripleQuotes(a + TripleQuote + b) == a + EscapedTripleQuote + EscapeTripleQuotes(b)
  {
    assert a + TripleQuote + b == a + (TripleQuote + b);
    EscapeConcat(a, TripleQuote + b);
    EscapeWithoutTriple(a);
    EscapeStep(TripleQuote + b);
    assert (TripleQuote + b)[3..] == b;
  }

  /** A lone triple quote becomes its escaped form. */
  lemma EscapeTripleQuote()
    ensures EscapeTripleQuotes(TripleQuote) == EscapedTripleQuote
  {
    assert TripleQuote[3..] == [];
  }

  /** One step of the replace: the head is rewritten or kept, and the rest
      is escaped on its own. */
  lemma EscapeStep(code: string)
    requires code != []
    ensures TripleQuote <= code ==> EscapeTripleQuotes(code) == EscapedTripleQuote + EscapeTripleQuotes(code[3..])
    ensures !(TripleQuote <= code) ==> EscapeTripleQuotes(code) == [code[0]] + EscapeTripleQuotes(code[1..])
  {
  }

  lemma ConcatAssoc(x: string, y: string, z: string)
    ensures x + (y + z) == (x + y) + z
  {
  }

  /** Splitting a concatenation inside its first part. */
  lemma SplitConcat(a: string, b: string, n: nat)
    requires n <= |a|
    ensures (a + b)[..n] == a[..n] && (a + b)[n..] == a[n..] + b
  {
  }

  /** A triple quote cannot start before a split that follows a character
      other than a quote, unless it lies wholly before the split. */
  lemma TripleQuoteBeforeSplit(a: string, b: string)
    requires a != [] && a[|a| - 1] != '\''
    ensures TripleQuote <= a + b <==> TripleQuote <= a
  {
    if |a| < 3 {
      assert (a + b)[|a| - 1] == a[|a| - 1];
    } else {
      SplitConcat(a, b, 3);
    }
  }

  /** Escaping works piece by piece: it distributes over any split of the
      code that does not fall right after a quote, so no text is lost,
      added or moved, and only triple quotes are rewritten. */
  lemma {:induction false} EscapeConcat(a: string, b: string)
    requires a == [] || a[|a| - 1] != '\''
    ensures EscapeTripleQuotes(a + b) == EscapeTripleQuotes(a) + EscapeTripleQuotes(b)
    decreases |a|
  {
    if a == [] {
      assert a + b == b;
    } else {
      TripleQuoteBeforeSplit(a, b);
      var n := if TripleQuote <= a then 3 else 1;
      var head := if TripleQuote <= a then EscapedTripleQuote else [a[0]];
      SplitConcat(a, b, n);
      EscapeStep(a);
      EscapeStep(a + b);
      assert EscapeTripleQuotes(a + b) == head + EscapeTripleQuotes(a[n..] + b);
      assert a[n..] == [] || a[n..][|a[n..]| - 1] == a[|a| - 1];
      EscapeConcat(a[n..], b);
      var rest, tail := EscapeTripleQuotes(a[n..]), EscapeTripleQuotes(b);
      assert EscapeTripleQuotes(a) == head + rest;
      ConcatAssoc(head, rest, tail);
    }
  }

  /** Code without a single quote is embedded unchanged. */
  lemma {:induction false} EscapeWithoutQuotes(code: string)
    requires forall i :: 0 <= i < |code| ==> code[i] != '\''
    ensures EscapeTripleQuotes(code) == code
    decreases |code|
  {
    if code != [] {
      assert code[0] != TripleQuote[0];
      EscapeWithoutQuotes(code[1..]);
    }
  }

  /** The test `"streamlit" in code or "st." in code`. */
  predicate MentionsStreamlit(code: string): (b: bool)
    ensures b <==> exists i :: OccursAt(code, "streamlit", i) || OccursAt(code, "st.", i)
    ensures b ==> |code| >= 3
  {
    ContainsAt(code, "streamlit");
    ContainsAt(code, "st.");
    Contains(code, "streamlit") || Contains(code, "st.")
  }

  /** The text-area wrapper used for code that does not mention Streamlit
      opens with `ShellOpen` and closes with `ShellClose`. */
  const ShellOpen: string :=
    "\n"
    + "st.title('Your Generated App')\n"
    + "st.write('Below is the generated code output rendered in a text area. You can copy and adapt it:')\n"
    + "st.code('''\\\n"

  const ShellClose: string := "\\n''', language='python')\n"

  /** `_wrap_streamlit`: Streamlit code is kept after the header; anything
      else is shown in a text area with its triple quotes escaped. */
  function WrapStreamlit(code: string): (r: string)
    ensures StreamlitHeader <= r
    ensures MentionsStreamlit(code) ==> r[|StreamlitHeader|..] == "\n" + code
    ensures !MentionsStreamlit(code) ==> r[|StreamlitHeader|..] == ShellOpen + EscapeTripleQuotes(code) + ShellClose
  {
    if MentionsStreamlit(code) then
      StreamlitHeader + "\n" + code
    else
      StreamlitHeader + (ShellOpen + EscapeTripleQuotes(code) + ShellClose)
  }

  /** Code that does not mention Streamlit is embedded in the text area with
      no unescaped triple quote left in it. */
  lemma WrapStreamlitEmbedsEscaped(code: string)
    requires !MentionsStreamlit(code)
    ensures Contains(WrapStreamlit(code), EscapeTripleQuotes(code))
    ensures NoBareTripleQuote(EscapeTripleQuotes(code))
  {
    EscapeLeavesNoBareTripleQuote(code);
    ContainsWrapped(StreamlitHeader, ShellOpen, EscapeTripleQuotes(code), ShellClose);
  }

  /** The test `"gradio" in code or "gr.Interface" in code or
      "import gradio as gr" in code`. */
  predicate MentionsGradio(code: string): (b: bool)
    ensures b <==> exists i ::
      OccursAt(code, "gradio", i) || OccursAt(code, "gr.Interface", i) || OccursAt(code, "import gradio as gr", i)
    ensures b ==> |code| >= 6
  {
    ContainsAt(code, "gradio");
    ContainsAt(code, "gr.Interface");
    ContainsAt(code, "import gradio as gr");
    Contains(code, "gradio") || Contains(code, "gr.Interface") || Contains(code, "import gradio as gr")
  }

  /** The third test of `_wrap_gradio` adds nothing: a code that contains
      "import gradio as gr" contains "gradio". */
  lemma MentionsGradioSimplified(code: string)
    ensures MentionsGradio(code) <==> Contains(code, "gradio") || Contains(code, "gr.Interface")
  {
    if Contains(code, "import gradio as gr") {
      ContainsMiddle("import ", "gradio", " as gr");
      assert "import " + "gradio" + " as gr" == "import gradio as gr";
      ContainsTransitive(code, "import gradio as gr", "gradio");
    }
  }

  /** `_wrap_gradio`: Gradio code is kept after the header; anything else is
      replaced by a fixed skeleton that does not depend on the code. */
  function WrapGradio(code: string): (r: string)
    ensures GradioHeader <= r
    ensures MentionsGradio(code) ==> r[|GradioHeader|..] == "\n" + code
    ensures !MentionsGradio(code) ==> r[|GradioHeader|..] == GradioSkeleton
  {
    if MentionsGradio(code) then GradioHeader + "\n" + code else GradioHeader + GradioSkeleton
  }

  /** Outside Gradio code the skeleton does not depend on the code. */
  lemma WrapGradioIgnoresOtherCode(a: string, b: string)
    requires !MentionsGradio(a) && !MentionsGradio(b)
    ensures WrapGradio(a) == WrapGradio(b)
  {
  }

  /** The requirements.txt of each framework. */
  function Requirements(framework: string): (r: string)
    ensures r == "streamlit\n" <==> framework == "streamlit"
    ensures r == "gradio\n" <==> framework == "gradio"
    ensures r == "" <==> framework != "streamlit" && framework != "gradio"
  {
    if framework == "streamlit" then "streamlit\n"
    else if framework == "gradio" then "gradio\n"
    else ""
  }

  /** The generated app's source for each framework. */
  function AppSource(framework: string, code: string): (r: string)
    ensures framework == "streamlit" ==> r == WrapStreamlit(code) && StreamlitHeader <= r
    ensures framework == "gradio" ==> r == WrapGradio(code) && GradioHeader <= r
    ensures framework != "streamlit" && framework != "gradio" ==> r == code
  {
    if framework == "streamlit" then WrapStreamlit(code)
    else if framework == "gradio" then WrapGradio(code)
    else code
  }

  /** The title and the "Prompt:" line of the README for each framework. */
  function ReadmeHeading(framework: string): string
  {
    if framework == "streamlit" then "# Generated Streamlit App\n\nPrompt:\n\n"
    else if framework == "gradio" then "# Generated Gradio App\n\nPrompt:\n\n"
    else "# Generated App\n\nPrompt:\n\n"
  }

  /** The prompt inside a markdown code fence. */
  function Fenced(prompt: string): string
  {
    "```\n" + prompt + "\n```"
  }

  /** The README.md of the project: a heading, then the prompt in a fence. */
  function Readme(framework: string, prompt: string): (r: string)
    ensures Contains(r, "```\n" + prompt + "\n```")
    ensures ReadmeHeading(framework) <= r
  {
    ContainsMiddle(ReadmeHeading(framework), Fenced(prompt), "");
    assert ReadmeHeading(framework) + Fenced(prompt) + "" == ReadmeHeading(framework) + Fenced(prompt);
    ReadmeHeading(framework) + Fenced(prompt)
  }

  /** run.sh always runs app.py, whatever the app file was called. */
  function RunScript(framework: string): (r: string)
    ensures r == "streamlit run app.py\n" <==> framework == "streamlit"
    ensures r == "python app.py\n" <==> framework != "streamlit"
    ensures Contains(r, "app.py")
  {
    if framework == "streamlit" then
      ContainsMiddle("streamlit run ", "app.py", "\n");
      assert "streamlit run " + "app.py" + "\n" == "streamlit run app.py\n";
      "streamlit run app.py\n"
    else
      ContainsMiddle("python ", "app.py", "\n");
      assert "python " + "app.py" + "\n" == "python app.py\n";
      "python app.py\n"
  }

  const GitIgnore: string := "__pycache__/\n*.pyc\n.env\n.venv/\n*.zip\n"

  /** The four names written after the app file. */
  const FixedNames: set<string> := {"requirements.txt", "README.md", "run.sh", ".gitignore"}

  /** `write_app_file`: writes the app file, requirements.txt and README.md
      for the framework, then run.sh and .gitignore, each write replacing
      whatever the file held. A later write wins when `appFilename` names one
      of the fixed files. */
  method WriteAppFile(fs: map<string, string>, framework: string, prompt: string, code: string, appFilename: string)
    returns (out: map<string, string>)
    ensures out.Keys == fs.Keys + {appFilename} + FixedNames
    ensures forall p :: p in fs && p != appFilename && p !in FixedNames ==> out[p] == fs[p]
    ensures appFilename !in FixedNames ==> out[appFilename] == AppSource(framework, code)
    ensures out["requirements.txt"] == Requirements(framework)
    ensures out["README.md"] == Readme(framework, prompt)
    ensures out["run.sh"] == RunScript(framework)
    ensures out[".gitignore"] == GitIgnore
  {
    out := fs;
    if framework == "streamlit" {
      out := out[appFilename := WrapStreamlit(code)];
      out := out["requirements.txt" := "streamlit\n"];
      out := out["README.md" := "# Generated Streamlit App\n\nPrompt:\n\n" + Fenced(prompt)];
    } else if framework == "gradio" {
      out := out[appFilename := WrapGradio(code)];
      out := out["requirements.txt" := "gradio\n"];
      out := out["README.md" := "# Generated Gradio App\n\nPrompt:\n\n" + Fenced(prompt)];
    } else {
      out := out[appFilename := code];
      out := out["requirements.txt" := ""];
      out := out["README.md" := "# Generated App\n\nPrompt:\n\n" + Fenced(prompt)];
    }
    var runSh := if framework == "streamlit" then "streamlit run app.py\n" else "python app.py\n";
    out := out["run.sh" := runSh];
    out := out[".gitignore" := GitIgnore];
  }
}
