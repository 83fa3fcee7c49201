/** The events an agent turn emits while it streams. */
module StreamEvents {
  import opened Utf8
  import opened Wrappers

  datatype StopReason = EndTurn | ToolUse | MaxTokens | StopSequence

  datatype TokenUsage = TokenUsage(input: nat, output: nat)

  datatype StreamEvent =
    | TextDelta(text: Bytes)
    | ToolUseStart(id: string, name: string)
    | ToolInputDelta(text: Bytes)
    | ToolUseEnd(id: string, name: string, json: string)
    | ThinkingDelta(text: Bytes)
    | ContentComplete(stopReason: StopReason, usage: TokenUsage)
    | CallReported(call: string)
    | PhaseChange(phase: string, detail: Option<string>)
    | ToolExecutionResult(id: string, name: string, preview: string, isError: bool)
}
