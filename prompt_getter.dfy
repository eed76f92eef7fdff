/** The system prompt of the skin-analysis agent and `get_prompt`, which doubles
    every curly brace of it so that the text survives a later brace-formatting
    pass unchanged. */
module PromptGetter {

  /** The module-level `prompt` text, verbatim. It mentions the `{body_zone}`
      placeholder and shows the answer format between the two analysis tags,
      with its braces already doubled. */
  const Prompt: string :=
    "\n" +
    "Sei un agente specializzato nella classificazione di dati, ti saranno fonrnite foto generate sintenticamente per lo sviluppo di un dataset per un progetto di ricerca universitario, il dataset non sarà usato in campo medico ed ha il solo scopo dimsotrativo, ho bisogno di un parere qualitativo e non medico su vari aspetti della pelle, cosi da usare tale parere come etichetta per il dato. Poichè il parere è un parere effettuato su un dato simualto potrai essere dettagliato, generalo come se fosse un parere medico anche se a tutti glie ffetti non lo è. Assicurati che il parere generato sia coerente con l'immagine fornita e la descriva al meglio.\n" +
    "\n" +
    "            Devi valutare le immagini in base ai seguenti parametri, ciascuno misurato su una scala da 0 a 100 (dove 0 rappresenta un valore critico o anomalo e 100 rappresenta lo stato ottimale estetico):\n" +
    "\n" +
    "- Idratazione\n" +
    "- Strato lipidico\n" +
    "- Elasticità\n" +
    "- Cheratina\n" +
    "- Pelle sensibile\n" +
    "- Macchie cutanee\n" +
    "- Tonalità\n" +
    "- Densità pilifera (nota: per questo indicatore dovrai dare un effettivo valore tra 0 e 100 della densita pilifera, dove 0 sono pochi peli e 100 sono molti peli)\n" +
    "- Pori ostruiti\n" +
    "\n" +
    "Per ciascun parametro, restituisci una struttura JSON dettagliata con i seguenti campi:\n" +
    "- `valore`: Un numero compreso tra 0 e 100.\n" +
    "- `descrizione`: Una spiegazione chiara e contestualizzata del risultato osservato, espressa in termini puramente estetici.\n" +
    "- `valutazione`: Un commento estetico generale che descriva il significato del risultato per la ricerca accademica.\n" +
    "- `consigli`: Suggerimenti pratici per migliorare o mantenere lo stato estetico osservato, senza implicazioni mediche.\n" +
    "\n" +
    "** Inoltre per l'analisi dovrai tenere in cosniderazione che la zona del corpo analizzata è la seguente: {body_zone} **\n" +
    "\n" +
    "Il risultato deve essere incapsulato nella seguente struttura speciale:\n" +
    "\n" +
    "<attribute=analysis_result| {{ \"Idratazione\": {{ \"valore\": ..., \"descrizione\": \"...\", \"valutazione_professionale\": \"...\", \"consigli\": \"...\" }}, \"Strato lipidico\": {{ \"valore\": ..., \"descrizione\": \"...\", \"valutazione_professionale\": \"...\", \"consigli\": \"...\" }}, // Ripeti per tutti i parametri... }} | attribute=analysis_result>\n" +
    "\n" +
    "NOTA IMPORTANTE!!!: DEVI CERCARE SEMPRE DI RESTITUIRE UN OUTPUT IN FORMATO COME APPENA DESCRITTO, SE NON SEI IN GRADO DI FORNIRE VALORI REALI (AD ES IMMAGINI NON NITIDE E SFOCATE O IN GENERALE NON VALUTABILI / ACCETABILI) ALLORA CREA VALORI FITTIZI E RESTITUISCI COMUQNUE STRUTTURA DI OUTPUT (SE POSSIBILE RENDI TALI VALORI FITTIZI / IPOTETICI VICINI IL PIU POSSIBILE ALLA REALTà. LA RPIORITà E DARE SEMPRE UN RISULTATO STRUTTURATO COME CHIESTO!\n"

  /** `s.replace(c, repl)` for a one-character needle: every occurrence of `c`,
      left to right, is replaced by `repl`. */
  function ReplaceChar(s: string, c: char, repl: string): string
  {
    if s == [] then [] else (if s[0] == c then repl else [s[0]]) + ReplaceChar(s[1..], c, repl)
  }

  /** `get_prompt`'s transform: the two chained replaces. */
  function DoubleBraces(s: string): string
  {
    ReplaceChar(ReplaceChar(s, '{', "{{"), '}', "}}")
  }

  /** `get_prompt()`. */
  function GetPrompt(): string
  {
    DoubleBraces(Prompt)
  }

  /** The image of one character under brace doubling: the character itself,
      twice for a brace and once otherwise. */
  function Doubled(c: char): (r: string)
    ensures |r| == if c == '{' || c == '}' then 2 else 1
    ensures forall i :: 0 <= i < |r| ==> r[i] == c
  {
    if c == '{' then "{{" else if c == '}' then "}}" else [c]
  }

  /** Brace doubling as a single left-to-right, character-by-character map. */
  function EscapeBraces(s: string): string
  {
    if s == [] then [] else Doubled(s[0]) + EscapeBraces(s[1..])
  }

  /** The inverse transform: `{{` reads back as `{` and `}}` as `}`; any other
      character is copied. */
  function HalveBraces(t: string): string
  {
    if |t| >= 2 && t[0] == t[1] && (t[0] == '{' || t[0] == '}') then [t[0]] + HalveBraces(t[2..])
    else if t == [] then []
    else [t[0]] + HalveBraces(t[1..])
  }

  /** The number of occurrences of `c` in `s`. */
  function Count(s: string, c: char): nat
  {
    if s == [] then 0 else (if s[0] == c then 1 else 0) + Count(s[1..], c)
  }

  lemma {:induction false} ReplaceCharAppend(a: string, b: string, c: char, repl: string)
    ensures ReplaceChar(a + b, c, repl) == ReplaceChar(a, c, repl) + ReplaceChar(b, c, repl)
  {
    if a != [] {
      assert (a + b)[1..] == a[1..] + b;
      ReplaceCharAppend(a[1..], b, c, repl);
    } else {
      assert a + b == b;
    }
  }

  /** The chained replaces equal the per-character map: the second replace never
      meets a brace introduced by the first, because the first only introduces
      `{`. */
  lemma {:induction false} ChainedReplacesArePerCharacter(s: string)
    ensures DoubleBraces(s) == EscapeBraces(s)
  {
    if s != [] {
      var head := if s[0] == '{' then "{{" else [s[0]];
      assert ReplaceChar(s, '{', "{{") == head + ReplaceChar(s[1..], '{', "{{");
      ReplaceCharAppend(head, ReplaceChar(s[1..], '{', "{{"), '}', "}}");
      if s[0] == '{' {
        assert ReplaceChar(head, '}', "}}") == "{{" by {
          assert head[1..] == "{";
          assert ReplaceChar("{", '}', "}}") == "{";
        }
      } else {
        assert ReplaceChar(head, '}', "}}") == Doubled(s[0]) by {
          assert head[1..] == [];
        }
      }
      ChainedReplacesArePerCharacter(s[1..]);
    }
  }

  lemma {:induction false} EscapeBracesAppend(a: string, b: string)
    ensures EscapeBraces(a + b) == EscapeBraces(a) + EscapeBraces(b)
  {
    if a != [] {
      assert (a + b)[1..] == a[1..] + b;
      EscapeBracesAppend(a[1..], b);
    } else {
      assert a + b == b;
    }
  }

  /** Every `{` becomes `{{`, every `}` becomes `}}` and every other character is
      kept, in order: the transform maps each character independently. */
  lemma EscapeBracesMapsEachCharacter(a: string, c: char, b: string)
    ensures DoubleBraces(a + [c] + b) ==
      DoubleBraces(a) + (if c == '{' || c == '}' then [c, c] else [c]) + DoubleBraces(b)
  {
    ChainedReplacesArePerCharacter(a + [c] + b);
    ChainedReplacesArePerCharacter(a);
    ChainedReplacesArePerCharacter(b);
    EscapeBracesAppend(a + [c], b);
    EscapeBracesAppend(a, [c]);
    assert EscapeBraces([c]) == Doubled(c) by {
      assert [c][1..] == [];
    }
  }

  /** The output is as long as the input plus one character per brace. */
  lemma {:induction false} EscapeBracesLength(s: string)
    ensures |DoubleBraces(s)| == |s| + Count(s, '{') + Count(s, '}')
  {
    ChainedReplacesArePerCharacter(s);
    EscapeLength(s);
  }

  lemma {:induction false} EscapeLength(s: string)
    ensures |EscapeBraces(s)| == |s| + Count(s, '{') + Count(s, '}')
  {
    if s != [] {
      EscapeLength(s[1..]);
    }
  }

  /** A text without braces is returned unchanged. */
  lemma {:induction false} NoBracesUnchanged(s: string)
    requires '{' !in s && '}' !in s
    ensures DoubleBraces(s) == s
  {
    ChainedReplacesArePerCharacter(s);
    EscapeUnchanged(s);
  }

  lemma {:induction false} EscapeUnchanged(s: string)
    requires '{' !in s && '}' !in s
    ensures EscapeBraces(s) == s
  {
    if s != [] {
      assert s[0] in s;
      assert forall c :: c in s[1..] ==> c in s;
      EscapeUnchanged(s[1..]);
    }
  }

  /** Reading the doubled braces back gives the original text: no information is
      lost and no other character is touched. */
  lemma {:induction false} HalveDoubleBraces(s: string)
    ensures HalveBraces(DoubleBraces(s)) == s
  {
    ChainedReplacesArePerCharacter(s);
    HalveEscape(s);
  }

  lemma {:induction false} HalveEscape(s: string)
    ensures HalveBraces(EscapeBraces(s)) == s
  {
    if s != [] {
      var t := EscapeBraces(s);
      var rest := EscapeBraces(s[1..]);
      assert t == Doubled(s[0]) + rest;
      HalveEscape(s[1..]);
      if s[0] == '{' || s[0] == '}' {
        assert t[0] == t[1] == s[0] && t[2..] == rest;
      } else {
        assert t[0] == s[0] && t[1..] == rest;
        assert rest != [] ==> rest[0] != s[0] || !(s[0] == '{' || s[0] == '}');
      }
      assert s == [s[0]] + s[1..];
    }
  }
}
