/**
 * `agent/prompt_loader.py`: the system prompt is read from `prompts/<os>.md` next to the
 * module, and a fixed generic prompt is used when that file is missing, unreadable or blank.
 * The platform name is a parameter and reading the file is an oracle.
 */
module PromptLoader {
  import opened Wrappers
  import opened PyStrings

  /** What reading a prompt file gave. */
  datatype FileRead = Absent | ReadFailed | Contents(text: string)

  /** `get_os_type()` */
  function GetOsType(system: string): (os: string)
    ensures os in {"macos", "linux", "windows", "unknown"}
    ensures os == "macos" <==> Lower(system) == "darwin"
    ensures os == "linux" <==> Lower(system) == "linux"
    ensures os == "windows" <==> Lower(system) == "windows"
  {
    var s := Lower(system);
    if s == "darwin" then "macos"
    else if s == "linux" then "linux"
    else if s == "windows" then "windows"
    else "unknown"
  }

  /** The prompt file, relative to the module's directory. */
  function PromptFile(os: string): (path: string)
    ensures StartsWith(path, "prompts/") && EndsWith(path, ".md")
    ensures |path| == |os| + 11 && path[8..|path| - 3] == os
  {
    "prompts/" + os + ".md"
  }

  /** `load_os_prompt()`: the stripped contents of the prompt file, or nothing. */
  function LoadOsPrompt(system: string, read: string -> FileRead): (r: Option<string>)
    ensures read(PromptFile(GetOsType(system))).Contents? <==> r.Some?
    ensures r.Some? ==> r.value == Strip(read(PromptFile(GetOsType(system))).text)
  {
    match read(PromptFile(GetOsType(system)))
    case Contents(text) => Some(Strip(text))
    case _ => None
  }

  /** The generic prompt used when no OS-specific prompt is available. */
  const DefaultPrompt: string :=
    "You are an expert terminal assistant. Your goal is to understand the user's request\n" +
    "and provide ONE or MORE shell commands to achieve it.\n" +
    "\n" +
    "If the user asks a question that doesn't require a command, answer it directly.\n" +
    "\n" +
    "IMPORTANT FORMATTING:\n" +
    "If you provide shell commands, enclose EACH command in its own triple backticks block, like this:\n" +
    "```bash\n" +
    "echo \"This is one command\"\n" +
    "ls -la\n" +
    "```\n" +
    "\n" +
    "If you need to explain something or ask for clarification, do so outside of the backtick blocks.\n" +
    "Do not add any conversational fluff before or after the command blocks if commands are the primary output.\n" +
    "Just provide the commands."

  /** `get_system_prompt()`: the loaded prompt unless it is missing or empty, else the default. */
  function GetSystemPrompt(system: string, read: string -> FileRead): (p: string)
    ensures p != []
    ensures var loaded := LoadOsPrompt(system, read);
      (loaded.Some? && loaded.value != [] ==> p == loaded.value) &&
      (loaded.None? || loaded.value == [] ==> p == DefaultPrompt)
  {
    var loaded := LoadOsPrompt(system, read);
    if loaded.Some? && loaded.value != [] then loaded.value else DefaultPrompt
  }

  /** A prompt file holding only whitespace counts as no prompt. */
  lemma BlankFileFallsBack(system: string, read: string -> FileRead)
    requires read(PromptFile(GetOsType(system))).Contents?
    requires forall c :: c in read(PromptFile(GetOsType(system))).text ==> c in Whitespace
    ensures GetSystemPrompt(system, read) == DefaultPrompt
  {
    var text := read(PromptFile(GetOsType(system))).text;
    StripBlank(text);
  }

  /** An unrecognised platform consults `prompts/unknown.md`. */
  lemma UnknownPlatformFile(system: string)
    requires Lower(system) !in {"darwin", "linux", "windows"}
    ensures PromptFile(GetOsType(system)) == "prompts/unknown.md"
  {
  }
}
