/**
 * `OSDetector` of `os_detection.py`: the operating system and shell decided from the platform
 * name (`platform.system()`) and the environment, both given as parameters.
 */
module OsDetection {
  import opened PyStrings

  datatype OsType = Windows | MacOs | Linux
  datatype ShellType = PowerShell | Cmd | Bash | Zsh | UnknownShell

  /** `os.environ.get(key, '')` */
  function EnvGet(env: map<string, string>, key: string): string {
    if key in env then env[key] else ""
  }

  /** The operating system part of `get_os_info`. */
  function OsOf(system: string): (os: OsType)
    ensures os == Windows <==> Lower(system) == "windows"
    ensures os == MacOs <==> Lower(system) == "darwin"
    ensures os == Linux <==> Lower(system) != "windows" && Lower(system) != "darwin"
  {
    var s := Lower(system);
    if s == "windows" then Windows
    else if s == "darwin" then MacOs
    else Linux
  }

  /** The shell part of `get_os_info`. */
  function ShellOf(os: OsType, env: map<string, string>): (sh: ShellType)
    ensures os == Windows ==>
      (sh == PowerShell <==> EndsWith(EnvGet(env, "ComSpec"), "powershell.exe")) &&
      (sh == Cmd <==> !EndsWith(EnvGet(env, "ComSpec"), "powershell.exe"))
    ensures os != Windows ==>
      var shell := Lower(EnvGet(env, "SHELL"));
      (sh == Zsh <==> Contains(shell, "zsh")) &&
      (sh == Bash <==> !Contains(shell, "zsh") && Contains(shell, "bash")) &&
      (sh == UnknownShell <==> !Contains(shell, "zsh") && !Contains(shell, "bash"))
  {
    if os == Windows then
      if EndsWith(EnvGet(env, "ComSpec"), "powershell.exe") then PowerShell else Cmd
    else
      var shell := Lower(EnvGet(env, "SHELL"));
      if Contains(shell, "zsh") then Zsh
      else if Contains(shell, "bash") then Bash
      else UnknownShell
  }

  /** `get_os_info()` */
  function GetOsInfo(system: string, env: map<string, string>): (info: (OsType, ShellType))
    ensures info.0 == OsOf(system) && info.1 == ShellOf(info.0, env)
  {
    var os := OsOf(system);
    (os, ShellOf(os, env))
  }

  /** Windows only ever gets a Windows shell, other systems only a Unix one. */
  lemma ShellMatchesOs(system: string, env: map<string, string>)
    ensures var (os, sh) := GetOsInfo(system, env);
      (os == Windows <==> sh in {PowerShell, Cmd}) &&
      (os != Windows <==> sh in {Bash, Zsh, UnknownShell})
  {
  }

  /** `is_windows()` */
  predicate IsWindows(system: string) {
    Lower(system) == "windows"
  }

  /** `is_macos()` */
  predicate IsMacOs(system: string) {
    Lower(system) == "darwin"
  }

  /** `is_linux()` */
  predicate IsLinux(system: string) {
    Lower(system) == "linux"
  }

  /** At most one of the three platform tests holds. */
  lemma AtMostOnePlatform(system: string)
    ensures !(IsWindows(system) && IsMacOs(system))
    ensures !(IsWindows(system) && IsLinux(system))
    ensures !(IsMacOs(system) && IsLinux(system))
  {
  }

  /** The platform tests agree with `get_os_info` on Windows and macOS, and Linux implies a Linux os type. */
  lemma PlatformTestsAgree(system: string, env: map<string, string>)
    ensures IsWindows(system) <==> GetOsInfo(system, env).0 == Windows
    ensures IsMacOs(system) <==> GetOsInfo(system, env).0 == MacOs
    ensures IsLinux(system) ==> GetOsInfo(system, env).0 == Linux
  {
  }

  /** Any platform name that is not Windows or macOS, such as `FreeBSD`, is reported as Linux although `is_linux` is false for it. */
  lemma UnknownSystemIsLinux(system: string, env: map<string, string>)
    requires system == "FreeBSD"
    ensures GetOsInfo(system, env).0 == Linux && !IsLinux(system)
  {
    assert Lower(system)[0] == 'f';
  }
}
