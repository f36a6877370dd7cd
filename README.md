# LXC configuration and resolver rewrite of docker's lxc_template.go

This project models the two pieces of logic in docker's `lxc_template.go` and proves properties of them in Dafny.

1. **The LXC configuration document.** Docker writes one per container from the `LxcTemplate` text. Module `LxcConfig` renders it by hand:
   - `Render` returns the document's directives in order as typed lines: blank lines, comments, settings, mount entries, and commented-out directives. Each typed line becomes one line of text only when the values substituted into it hold no newline (see "## Left out");
   - the blank lines the template engine leaves behind are reproduced;
   - `Document` ends every line with a newline, the last one included.

   The template's two helpers are modelled as well:
   - `getMemorySwap` is `GetMemorySwap`, with Go's 64-bit wrap-around written out;
   - `getResolvConfPath` is the parameter `resolvConfPath`, which the class in `Driver` supplies from its field.

   Go template truth is followed exactly: a string is true when non-empty, an integer when non-zero (negative values included).
2. **The resolver rewrite of `checkResolvConf`.** Module `Loopback` does the following:
   - it matches the regular expression `127(.[0-9]{0,3}){3}`. The dot is unescaped, so it matches any character except a newline. Each digit run is greedy and backtracks;
   - `RewriteLoopback` replaces every leftmost-first, non-overlapping match with the text of the bridge's address;
   - `ResolvConfPathFor` chooses `/var/lib/docker/resolv.conf` when that rewrite changed the file and `/etc/resolv.conf` otherwise.

   Two implementations are each proved against a declarative definition: the backtracking search for a match (`Groups`/`TryDigits`) against `GroupsAt` and `Prefers`, and the left-to-right scan method (`ReplaceLoopback`) against `ReplaceFrom`, which in turn equals the `Splice` of the `LeftmostSpans`. Module `Driver` holds the package variable `resolvConfPath` in a class:
   - its `CheckResolvConf` method takes the operating system's answers as inputs;
   - it returns an error for each `panic` of the source;
   - it sets the field only on success;
   - `getResolvConfPath` is the class's `GetResolvConfPath`, which `Generate` reads when rendering a container.

Module `Decimal` prints integers the way Go prints an `int64`, and parses them back. Module `Wrappers` holds `Option` and `Result`.

Three consequences of the code are worth stating on their own:
- **No custom resolver file.** The comment above `checkResolvConf` says a custom resolv.conf already in /var/lib/docker would be used. The function never looks for one: it always reads /etc/resolv.conf and overwrites the copy whenever the rewrite changes the content. The model follows the function (`Reconcile`).
- **Memory block condition.** The template's `if` is true for any non-zero Memory, so a negative Memory also emits the memory block (`RenderMemoryLimits`).
- **Replacement text.** The replacement is the first result of `net.ParseCIDR`, which is the interface's own address. For a bridge at `10.0.3.1/24`, the line `nameserver 127.0.1.1` becomes `nameserver 10.0.3.1`, not the network address `10.0.3.0` (`LocalNameserverExample`).

## Model

| member | source | states |
|---|---|---|
| Decimal.IntToString | lxc_template.go:93-96 | The printed integer is non-empty, starts with '-' exactly when the value is negative, and otherwise consists of decimal digits, with no leading zeros. |
| Decimal.IntToStringRoundTrip | lxc_template.go:93-96 | Parsing the printed text gives back the integer, so a limit line carries exactly the value substituted into it. |
| Decimal.IntToStringInjective | lxc_template.go:93-96 | Distinct integers print as distinct texts. |
| LxcConfig.Wrap64 | lxc_template.go:110 | The 64-bit result is congruent to the mathematical value modulo 2^64 and equals it when it fits in int64. |
| LxcConfig.GetMemorySwap | lxc_template.go:104-111 | The result is 0 whenever MemorySwap is negative, whatever Memory is. Otherwise it is 2*Memory in int64 arithmetic: congruent modulo 2^64, and exactly 2*Memory when that fits. |
| LxcConfig.SwapLimitZero | lxc_template.go:104-111 | The swap limit is zero exactly when MemorySwap is negative, Memory is zero, or Memory is the smallest int64 (its double wraps to 0). |
| LxcConfig.UtsName | lxc_template.go:13-17 | The host name written is Config.Hostname when it is non-empty, the container Id otherwise. |
| LxcConfig.HostnameValues | lxc_template.go:12-18 | The hostname section sets `lxc.utsname` once, to the chosen name. It sets no other key, because the aa_profile line is commented out. |
| LxcConfig.RootfsValues | lxc_template.go:28-31 | The root section sets `lxc.rootfs` once, to Mountpoint.Root, and no other key. |
| LxcConfig.LimitsValues | lxc_template.go:91-98 | The limits section sets limit and soft limit to Memory when Memory is non-zero. It sets the swap limit to its value only when Memory and that value are both non-zero. It sets nothing else. |
| LxcConfig.StaticSilent | lxc_template.go:33-89 | The terminal, device, mount and capability sections set none of the container-dependent keys (host name, ipv4 address, root and the three memory limits). |
| LxcConfig.NetworkValues | lxc_template.go:20-27 | Of the container-dependent keys, the network section sets only `lxc.network.ipv4`, once, to IpAddress, `/` and IpPrefixLen. |
| LxcConfig.RenderTracked | lxc_template.go:11-99 | Over the whole document, a container-dependent key takes its values only from the hostname, network, root and limits sections. |
| LxcConfig.RenderUtsname | lxc_template.go:13-17 | The rendered directives hold exactly one `lxc.utsname` setting. Its value is Config.Hostname when non-empty, otherwise Id. |
| LxcConfig.RenderIpv4 | lxc_template.go:26 | The rendered directives hold exactly one `lxc.network.ipv4` setting: NetworkSettings.IpAddress, `/`, and IpPrefixLen in decimal. |
| LxcConfig.RenderRootfs | lxc_template.go:29-30 | The rendered directives hold exactly one `lxc.rootfs` setting, and its value is Mountpoint.Root. |
| LxcConfig.RenderMemoryLimits | lxc_template.go:92-94 | Among the rendered directives, the limit and soft-limit settings appear once each when Memory is non-zero (negative included) and are absent otherwise. Both carry Memory. |
| LxcConfig.RenderSwapLimit | lxc_template.go:95-97 | The swap-limit setting appears exactly when Memory is non-zero and getMemorySwap is non-zero. Its value is getMemorySwap. |
| LxcConfig.RenderSwapSentinel | lxc_template.go:92-109 | With MemorySwap = -1 and a memory limit, the limit and soft-limit lines remain and the swap line is absent. With MemorySwap >= 0 the swap line is present unless the double wraps to zero. |
| LxcConfig.StandardMountsMounts | lxc_template.go:73-79 | The standard mounts in effect are proc, sysfs and devpts under the root, in that order. The three commented-out tmpfs entries are not in effect. |
| LxcConfig.InitMountMounts | lxc_template.go:81-82 | The init mount binds SysInitPath read-only onto `<root>/sbin/init`. |
| LxcConfig.ResolvConfMountMounts | lxc_template.go:84-86 | The resolver mount binds the resolved path read-only onto `<root>/etc/resolv.conf`, written without a blank after `=`. |
| LxcConfig.MountSectionMounts | lxc_template.go:73-86 | The mount section holds exactly those five mounts, in order. |
| LxcConfig.RenderMountsInSection | lxc_template.go:11-99 | Every other section holds no mount entry in effect. |
| LxcConfig.RenderMounts | lxc_template.go:74-86 | The document's mounts in effect are exactly proc, sysfs, devpts, the init binary from SysInitPath, and the resolver file from the resolved path, in that order. |
| LxcConfig.MountsUnderRoot | lxc_template.go:74-86 | Every mount entry in effect targets a path that starts with Mountpoint.Root. |
| LxcConfig.ResolvConfLine | lxc_template.go:86 | The resolver mount line reads `lxc.mount.entry =<path> <root>/etc/resolv.conf none bind,ro 0 0`. |
| LxcConfig.Render | lxc_template.go:11-99 | The template's directives in order; what they set is stated by RenderTracked, RenderUtsname, RenderIpv4, RenderRootfs, RenderMemoryLimits, RenderSwapLimit and RenderMounts. |
| LxcConfig.Serialize | lxc_template.go:11-99 | Each directive's text followed by a newline, the first line included; stated by SerializeAppend and SerializeAt. |
| LxcConfig.Document | lxc_template.go:11-99 | The text of the rendered directives; DocumentUtsname and DocumentResolvConf give lines it contains. |
| LxcConfig.SerializeAppend | lxc_template.go:11-99 | The text of consecutive parts is the concatenation of their texts, so each section's lines appear in the document in order. |
| LxcConfig.SerializeAt | lxc_template.go:11-99 | Each line's text, ended by a newline, stands in the document between the text of the lines before it and that of the lines after it. |
| LxcConfig.SettingInText | lxc_template.go:11-99 | Every setting in effect is a whole line of the document text. |
| LxcConfig.MountInText | lxc_template.go:74-86 | Every mount entry in effect is a whole line of the document text. |
| LxcConfig.DocumentUtsname | lxc_template.go:13-17 | The document text contains the line `lxc.utsname = <name>` with the chosen host name. |
| LxcConfig.DocumentResolvConf | lxc_template.go:86 | The document text contains the line `lxc.mount.entry =<path> <root>/etc/resolv.conf none bind,ro 0 0`. |
| Loopback.DigitRun | lxc_template.go:126 | A `[0-9]{0,3}` run takes at most three characters, all digits, and stops only at the limit, the end of input or a non-digit. |
| Loopback.Groups | lxc_template.go:126 | A result is one valid way for the n groups `.[0-9]{0,3}` to match from p, with one digit count per group. |
| Loopback.TryDigits | lxc_template.go:126 | Backing off one digit at a time, any result found is a valid match of the n groups. |
| Loopback.GroupsExist | lxc_template.go:126 | The groups match exactly when the next n characters exist and none of them is a newline. |
| Loopback.GroupsGreedy | lxc_template.go:126 | Whenever some assignment of digit counts matches, the search finds a match. The match it finds is the one leftmost-first semantics prefers over every other valid assignment: more digits in earlier groups first. |
| Loopback.MatchAt | lxc_template.go:126 | A match starting at i ends at least six characters later and within the text. |
| Loopback.MatchAtCandidate | lxc_template.go:126 | A match starts at i exactly when `127` stands there followed by three more characters of the same line. |
| Loopback.ReplaceFrom | lxc_template.go:144 | Replace-all from a position, matches replaced and skipped, other characters kept; ReplaceIsSplice proves it is the splice of the leftmost-first matches. |
| Loopback.RewriteLoopback | lxc_template.go:144 | Every match in the file replaced by the address; stated by RewriteIsSplice, NoLoopbackUnchanged, AlreadyRewrittenUnchanged and LoopbackChanged. |
| Loopback.ReplaceLoopback | lxc_template.go:144 | The left-to-right scan produces exactly RewriteLoopback of the content. |
| Loopback.Spans | lxc_template.go:144 | The matches found from i are leftmost-first: each starts at the first position, at or after the previous match's end, where a match starts. They are ordered and do not overlap, and no match starts after the last one. |
| Loopback.ReplaceIsSplice | lxc_template.go:144 | Replace-all equals the splice of those matches: every match becomes exactly the replacement, and the text between matches is kept. |
| Loopback.RewriteIsSplice | lxc_template.go:144 | The rewrite of the whole file is the splice of the matches the scan finds. |
| Loopback.NoLoopbackUnchanged | lxc_template.go:144 | Content with no `127` followed by three more characters of its line is returned unchanged. |
| Loopback.AlreadyRewrittenUnchanged | lxc_template.go:144 | Content whose every match already reads as the replacement is returned unchanged. |
| Loopback.LoopbackChanged | lxc_template.go:144 | Content with a match changes whenever the host address does not itself start with `127`. |
| Loopback.ResolvConfPathFor | lxc_template.go:144-155 | The path is one of the two files, and it is `/var/lib/docker/resolv.conf` exactly when the rewrite changed the content. |
| Loopback.NoLoopbackKeepsHostPath | lxc_template.go:144-155 | Without a loopback-style entry, containers get `/etc/resolv.conf`. |
| Loopback.LoopbackSelectsDockerPath | lxc_template.go:144-155 | With a loopback-style entry and a bridge address not starting with `127`, containers get `/var/lib/docker/resolv.conf`. |
| Loopback.ExampleMatch | lxc_template.go:126 | In `nameserver 127.0.1.1\n` the match starts at offset 11 and ends at offset 20, before the newline. |
| Loopback.LocalNameserverExample | lxc_template.go:140-155 | With bridge address 10.0.3.1/24, `nameserver 127.0.1.1\n` becomes `nameserver 10.0.3.1\n` (the address, not the network) and the copy's path is chosen. |
| Driver.Reconcile | lxc_template.go:120-156 | Errors come in the source's order: unreadable file, interface failure, no address, unparsable address. When the rewrite leaves the content unchanged, startup succeeds with `/etc/resolv.conf` and writes nothing. When it changes the content, a failing mkdir gives MkdirFailed, then a failing write gives WriteFailed, and otherwise the rewritten content is written and the copy's path chosen. File-system failures occur only when a copy must be written. On success the path is ResolvConfPathFor of the content and the first address, and a copy, the rewritten content, is written exactly when that path is the copy's. |
| Driver.ReconcileNoLoopback | lxc_template.go:144-155 | Without a loopback-style entry, startup succeeds with `/etc/resolv.conf` and writes nothing, whatever the file system would answer. |
| Driver.ReconcileLoopback | lxc_template.go:144-152 | With a loopback-style entry, startup fails if the directory or the copy cannot be made. Otherwise it writes the rewritten content and chooses the copy. |
| Driver.ReconcileFirstAddress | lxc_template.go:136-140 | Only the bridge's first address matters. |
| Driver.Daemon.constructor | lxc_template.go:102 | `resolvConfPath` starts empty and nothing has been written. |
| Driver.Daemon.GetResolvConfPath | lxc_template.go:113-115 | The path the field holds, read when a container is rendered; Generate states the document uses it. |
| Driver.Daemon.CheckResolvConf | lxc_template.go:120-156 | The result is Reconcile of the inputs. On success the field holds the chosen path and the persisted copy is what was written. On any error the field is unchanged, and so is the copy unless the write itself failed. |
| Driver.Daemon.Generate | lxc_template.go:85-86 | A container's document is rendered with the path the field holds at that moment. |
| Driver.StartupThenRender | lxc_template.go:144-152 | After startup on a file with a loopback-style entry, every container's fifth mount binds `/var/lib/docker/resolv.conf`. |

## Left out

- Reading `/etc/resolv.conf`, creating `/var/lib/docker`, writing the copy, and the permission bits 0700 and 0644 are operating-system effects. The model takes their outcomes as inputs: the file's content or its absence, and whether each step succeeded.
- `net.InterfaceByName`, `Addrs` and `net.ParseCIDR` are foreign calls. The model takes the address list as input, each address as the canonical text of its IP or as unparsable. The canonical text `IP.String()` produces is not modelled.
- Compiling the regular expression cannot fail for this constant pattern, so that panic has no error value.
- The `text/template` engine and the compile step in `init` are replaced by the hand-written `Render`. The `LxcTemplateCompiled` variable is not modelled.
- The init-mode bootstrap (`SelfPath`, `SysInit`) belongs to another part of docker and is not part of this model.
- Each `panic` is an error result, not a process abort. The panic message texts are not modelled.
- The content is the file's text decoded as UTF-8, one Dafny `char` (a Unicode scalar value) per decoded character, as Go's regexp reads it; for valid UTF-8 the model is exact. Invalid UTF-8, which Go reads one byte at a time as U+FFFD, is not modelled.
- Driver.Daemon.Generate: states only that rendering uses the path currently in the field. The later use of the document by the container start-up code is not part of this model.
- Values substituted into the template (Hostname, Id, IpAddress, Root, SysInitPath, the resolver path) are not checked by the code, so one holding a newline splits its line of text and can add directives of its own. The "exactly one setting" results (RenderUtsname, RenderIpv4, RenderRootfs, RenderMemoryLimits) count typed directives, not lines of the text; they describe the text only for newline-free values.
- Driver.Daemon.CheckResolvConf: says nothing of the copy after a failed write, because `ioutil.WriteFile` truncates the file before writing and can leave it partly written.
- The `networkBridgeIface` name is a setting of another docker file and is not part of this model. The bridge's addresses are the input instead.
