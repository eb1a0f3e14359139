/** The fixed texts of the builder are plain ASCII, so an unusual character in a trace comes from
    the job. */
module TraceProse {
  import opened Text
  import opened TraceSteps
  import opened TraceBuilder

  lemma Thought0Rest(c: char)
    requires c > '~'
    ensures c !in THOUGHT0_REST
  {}

  lemma Thought0More(c: char)
    requires c > '~'
    ensures c !in THOUGHT0_MORE
  {}

  lemma Thought1Rest(c: char)
    requires c > '~'
    ensures c !in THOUGHT1_REST
  {}

  lemma Thought1More(c: char)
    requires c > '~'
    ensures c !in THOUGHT1_MORE
  {}

  lemma Thought2Rest(c: char)
    requires c > '~'
    ensures c !in THOUGHT2_REST
  {}

  lemma Thought2More(c: char)
    requires c > '~'
    ensures c !in THOUGHT2_MORE
  {}

  lemma Thought0Head(c: char)
    requires c > '~'
    ensures c !in THOUGHT0_HEAD
  {}

  lemma Thought0End(c: char)
    requires c > '~'
    ensures c !in THOUGHT0_END
  {}

  lemma Thought0Tail(c: char)
    requires c > '~'
    ensures c !in THOUGHT0_TAIL
  {}

  lemma Thought1Head(c: char)
    requires c > '~'
    ensures c !in THOUGHT1_HEAD && c !in THOUGHT1_END
  {}

  lemma Thought1Tail(c: char)
    requires c > '~'
    ensures c !in THOUGHT1_TAIL
  {}

  lemma Thought2Head(c: char)
    requires c > '~'
    ensures c !in THOUGHT2_HEAD && c !in THOUGHT2_END
  {}

  lemma Thought2Tail(c: char)
    requires c > '~'
    ensures c !in THOUGHT2_TAIL
  {}

  lemma DecisionHead(c: char)
    requires c > '~'
    ensures c !in DECISION_HEAD
  {}

  lemma DecisionPlain(c: char)
    requires c > '~'
    ensures c !in DECISION_TEXT
  {
    hide DECISION_HEAD;
    DecisionHead(c);
  }

  lemma NarrativeIn(job: Job, k: nat, c: char)
    requires job.commands != [] && k < 3 && c > '~'
    ensures c in Narrative(job, k) <==> (k == 0 && c in job.problem) || (k == 1 && c in job.commands[0])
  {
    hide THOUGHT0_HEAD, THOUGHT0_TAIL, THOUGHT0_REST, THOUGHT0_MORE, THOUGHT0_END;
    hide THOUGHT1_HEAD, THOUGHT1_TAIL, THOUGHT1_REST, THOUGHT1_MORE, THOUGHT1_END;
    hide THOUGHT2_HEAD, THOUGHT2_TAIL, THOUGHT2_REST, THOUGHT2_MORE, THOUGHT2_END;
    Thought0Head(c);
    Thought0End(c);
    Thought0Tail(c);
    Thought0Rest(c);
    Thought0More(c);
    Thought1Head(c);
    Thought1Tail(c);
    Thought1Rest(c);
    Thought1More(c);
    Thought2Head(c);
    Thought2Tail(c);
    Thought2Rest(c);
    Thought2More(c);
  }

  lemma ArtifactIn(path: string, c: char)
    requires c > '~'
    ensures c in ArtifactText(path) <==> c in path
  {}
}
