# s3repo: key selection, modelled in Dafny

`s3repo` lists the objects of an S3 bucket whose keys start with
`<service>-` and picks the artifact to list or download. It builds an
anchored regular expression from a version-pattern template. Placeholders
in the template stand for sub-expressions:

- `%V` is a version number;
- `%S` is a sub-version;
- `%G` is an optional git distance;
- `%B` is the named group `buildnum`;
- `%W` is any text.

It then scans the listing. The scan keeps the compatible keys and the key
with the highest build number. When the scan adopted no key, it falls back
to the most recently modified object. `list` prints the compatible keys,
with the chosen one marked `*`.

This project models that core in five modules:

- `Wrappers`: `Option` and `Result`.
- `BuildNumbers`: `strconv.Atoi` on a 64-bit platform. It covers the optional
  sign, decimal digits, a syntax error and a range error. As in Go, a run of
  leading digits that overflows 64 unsigned bits is a range error even when a
  non-digit follows it.
- `ObjectKeys`: `path.Ext`, `strings.TrimSuffix` and the basename the scan
  matches against.
- `KeyPattern`: the template expansion of `getKeyRegexp`.
  - `regexp.QuoteMeta` and `strings.Replace` are modelled exactly.
  - The loop over the Go map visits placeholders in an unspecified order. Here
    that order is the parameter `order` of `KeyRegexp`.
  - The method is proved to return `KeyExpression(service, pattern)` for every
    order. `KeyExpression` is a one-pass, simultaneous substitution of all
    placeholders (`Expand`).
  - This rests on `WellFormed(Constructs)`: no replacement text contains a `%`
    or begins with a placeholder letter. So one replacement can neither create
    nor destroy a token of another.
  - `VersionTemplate` is the default template `prefix + ".%W-%B"`, used when no
    pattern is given.
- `Selection`: the scan, the recency fallback, the "No files found" outcome and
  the `list` marking.
  - The compiled expression is a `Matcher`. It answers two questions: does a
    basename match, and what does `ReplaceAllString(basename, "${buildnum}")`
    give.
  - `Classify` is what the scan makes of one key. Its cases are: no match, an
    empty build text, a build text `Atoi` rejects, or a build number.
  - The specification functions (`CompatibleKeys`, `MaxBuild`, `ScanWinner`,
    `FallbackWinner`, `Resolution`) take that classification as a parameter.
  - `Visit` is the body of the scan loop for one key. The loops `Scan` and
    `MostRecent` are proved to compute these functions. `Resolve` composes the
    two, and `ListLines` is specified by its own contract.

The model follows the code in four places where it may surprise a reader:

- A matching key whose build text `Atoi` rejects is skipped by `continue`. It is
  therefore not among the compatible keys and is never listed.
- While no positive build number has been adopted, each matching key with an
  empty build text replaces the previous one. The LAST such key wins
  (`EmptyCaptureWinner`), not the first. A positive build number, once
  adopted, is replaced only by a strictly larger one (`WinnerStableAfterBuild`).
- The recency fallback runs over the whole listing, including keys that do not
  match.
- The fallback also runs when keys are compatible but none was adopted: every
  compatible key has a build number of 0 or less and none has an empty build
  text. The winner can then be a key that is not listed at all. With
  `app-0` (build 0, modified at 1) and a non-matching `other` (modified at 2),
  the outcome lists `app-0` and chooses `other` (`FallbackOutsideCompatible`).

With no pattern and the default prefix `0.1.`, the template is `0.1..%W-%B`,
with two dots. `DefaultTemplateExpression` gives the expansion for any prefix.

## Model

| member | source | states |
|---|---|---|
| KeyPattern.QuoteMeta | s3repo.go:59 | quoting at most doubles the length and leaves text without special characters unchanged |
| KeyPattern.QuoteMetaIsLiteral | s3repo.go:59 | the quoted text is a literal: every special character in it is preceded by a backslash, and every backslash escapes a special character |
| KeyPattern.LiteralIsQuoteMeta | s3repo.go:59 | a literal is the quoting of the text it stands for, so quoting is the only way to write a literal |
| KeyPattern.UnquoteQuoteMeta | s3repo.go:59 | quoting is injective: removing one level of escaping gives back the literal text |
| KeyPattern.QuoteMetaAppend | s3repo.go:59 | quoting `service + "-" + pattern` is quoting each part in turn |
| KeyPattern.Replace | s3repo.go:69 | a text holding no first character of the searched token is left unchanged |
| KeyPattern.ReplaceAfterFreePrefix | s3repo.go:69 | a prefix that cannot start an occurrence is copied unchanged by the replacement |
| KeyPattern.ConstructsWellFormed | s3repo.go:60-65 | the five sub-expressions are non-empty, contain no '%' and begin with '(' rather than with a placeholder letter |
| KeyPattern.ReplaceExtendsExpand | s3repo.go:67-70 | one more range-loop replacement after substituting some placeholders equals substituting those placeholders plus the new one at once |
| KeyPattern.ExpandAppend | s3repo.go:59-70 | substitution distributes over a concatenation whose second part does not begin with a placeholder letter |
| KeyPattern.ExpandLeavesNoPlaceholder | s3repo.go:67-70 | after substitution no %V, %S, %G, %B or %W token is left in the expression |
| KeyPattern.QuoteMetaPercentFree | s3repo.go:59 | quoting a text without '%' introduces no '%' |
| KeyPattern.ExpandPercentFree | s3repo.go:67-70 | a text without '%' is left unchanged by the substitution |
| KeyPattern.KeyExpressionAnchored | s3repo.go:58-72 | the expression begins with '^', ends with '$', and holds no placeholder token between them |
| KeyPattern.KeyExpressionLiteral | s3repo.go:58-72 | when service and pattern hold no '%', the expression is the anchored quoted `service-pattern`, a literal that matches only that text |
| KeyPattern.KeyRegexp | s3repo.go:58-72 | for every visiting order of the map, the expression is the anchored simultaneous substitution of the quoted `service-pattern`: the map order does not matter |
| KeyPattern.PrefixIgnoredWithPattern | s3repo.go:119-123 | a non-empty pattern is the template as given, whatever the prefix |
| KeyPattern.DefaultTemplateQuoted | s3repo.go:119-120 | with no pattern, the quoted template is the quoted `service-prefix` followed by `\.%W-%B` |
| KeyPattern.DefaultTemplateExpression | s3repo.go:119-123 | with no pattern, the expression is the expanded `service-prefix`, a literal dot, the `%W` group, a dash and the named `%B` group |
| BuildNumbers.DigitRun | s3repo.go:165 | the length of the run of leading digits: all characters before it are digits and the one after it is not |
| BuildNumbers.Atoi | s3repo.go:165-168 | a parsed build number lies in the 64-bit range and the text holds at least one digit |
| BuildNumbers.DecimalValueGrows | s3repo.go:165 | appending digits to a digit string never lowers its value |
| BuildNumbers.AtoiOverflowFirst | s3repo.go:165-168 | a run of leading digits beyond 64 unsigned bits is a range error, whatever text follows it |
| BuildNumbers.DecimalValueOfDecimal | s3repo.go:165 | the decimal digits of a number read back as that number |
| BuildNumbers.AtoiOfDecimal | s3repo.go:165 | Atoi parses the decimal text of every non-negative 64-bit number back to that number |
| BuildNumbers.AtoiOfDigits | s3repo.go:165-168 | a digit string parses exactly when its value fits 64 bits, to that value; otherwise the error is a range error |
| ObjectKeys.ExtStart | s3repo.go:146 | the extension starts at the last '.' after the last '/', and there is none when every '.' is followed by a '/' |
| ObjectKeys.Ext | s3repo.go:146 | the extension is empty exactly when the last element has no '.'; otherwise it is the suffix of the key from that '.', holding no further '.' or '/' |
| ObjectKeys.TrimSuffix | s3repo.go:149 | a key ending in the suffix is the result followed by the suffix; any other key is returned unchanged |
| ObjectKeys.Basename | s3repo.go:146-152 | the basename is a prefix of the key; when shorter, the rest is an extension starting with '.' holding no further '.' or '/'; when equal, the key has no extension |
| ObjectKeys.BasenameOfArchive | s3repo.go:146-152 | only the last extension is trimmed: `app-1.tar.gz` gives `app-1.tar` |
| ObjectKeys.BasenameOfDottedVersion | s3repo.go:146-152 | a dotted version number loses its last component: `app-1.0-3` gives `app-1` |
| ObjectKeys.BasenameWithDotInDirectory | s3repo.go:146-152 | a '.' before the last '/' is not an extension: `v1.2/app` is kept |
| Selection.Classify | s3repo.go:146-168 | a key is unmatched exactly when its basename does not match, has an empty build text exactly when the match captures nothing, is skipped exactly when `Atoi` rejects the text, and otherwise carries the parsed number |
| Selection.CompatibleKeys | s3repo.go:157-176 | every listed key is compatible and every compatible key of the listing is listed |
| Selection.CompatibleKeysMembership | s3repo.go:157-176 | a key is listed exactly when it occurs in the listing and matches with an empty or parsable build text |
| Selection.CompatibleKeysAppend | s3repo.go:144-178 | the list keeps listing order: two listings in a row list the keys of each, in order |
| Selection.MaxBuild | s3repo.go:165-173 | the best build number is 0 or more, bounds every build number seen, and is carried by some key when positive |
| Selection.ScanWinnerStep | s3repo.go:157-176 | one more key is adopted exactly when its build number is strictly larger, or its build text is empty and no positive build has been adopted |
| Selection.BuildWinner | s3repo.go:165-173 | with a positive build number present, the adopted key is the first one carrying the largest build number |
| Selection.EmptyCaptureWinner | s3repo.go:159-163 | with no positive build number, the adopted key is the last one with an empty build text, and none is adopted when there is no such key |
| Selection.ScanWinnerCompatible | s3repo.go:157-176 | an adopted key is one of the compatible keys |
| Selection.WinnerStableAfterBuild | s3repo.go:159-173 | after a positive build is adopted, keys with no larger build number change neither the best build nor the adopted key |
| Selection.MaxBuildOrderIndependent | s3repo.go:144-178 | the best build number does not depend on the listing order |
| Selection.UniqueMaxWinnerOrderIndependent | s3repo.go:144-178 | when a single key carries the largest build number, the adopted key does not depend on the listing order |
| Selection.NoBuildGroupListsMatches | s3repo.go:157-176 | with no build group in the expression, the compatible keys are exactly the matching keys |
| Selection.NoBuildGroupLastMatchWins | s3repo.go:157-163 | with no build group in the expression, the last matching key is adopted |
| Selection.DigitBuildText | s3repo.go:158-168 | a digit build text is never treated as empty, is skipped exactly when it overflows 64 bits, and otherwise gives its value |
| Selection.Visit | s3repo.go:145-176 | one pass of the loop body moves the three variables as `Advance` says for the key's classification |
| Selection.ScannedStep | s3repo.go:157-176 | the specification functions of a prefix one key longer are the previous ones advanced by that key |
| Selection.Scan | s3repo.go:141-178 | for a ghost classifier that agrees with `Classify` on the listed keys, the loop computes the compatible keys, the best build number and the adopted key of the whole listing |
| Selection.FirstLatest | s3repo.go:181-187 | the fallback position carries the latest modification time, strictly later than every earlier entry |
| Selection.MostRecent | s3repo.go:180-188 | the fallback loop picks the first of the most recently modified objects, or no key for an empty listing |
| Selection.NoAdoptionFallsBack | s3repo.go:180-193 | when no key has a positive build or an empty build text, nothing is adopted and the winner is the most recent object of the whole listing |
| Selection.FallbackOutsideCompatible | s3repo.go:180-202 | a listing whose only compatible key has build 0 chooses a more recent key that is not listed |
| Selection.ResolvedWinner | s3repo.go:180-193 | the outcome lists the compatible keys; its winner is the adopted key if any, else the first most recent object of the whole listing |
| Selection.NoFilesFoundIffEmpty | s3repo.go:190-193 | with non-empty keys, "No files found" is reported exactly for an empty listing |
| Selection.Resolve | s3repo.go:141-193 | scan, fallback and empty check together give the outcome `Resolution` |
| Selection.ListLines | s3repo.go:195-202 | one line per compatible key, in order, holding the key after '*' exactly when it is the winner and after ' ' otherwise |

## Left out

- `regexp.Compile`, `MatchString` and `ReplaceAllString` are not modelled. The scan sees the compiled expression only as a `Matcher`. No lemma ties a `Matcher` to the text `KeyExpression` produces.
- The error branch of `regexp.Compile` (lines 125-129) is not modelled, for the same reason.
- The command line is not modelled: flag parsing, the checks of lines 86-105, the usage text and logging.
- The AWS session and `ListObjects` are not modelled. The listing is a parameter. The server-side filter on `<service>-` and the 1000-key page limit of one `ListObjects` call are not modelled.
- The `update` command is not modelled: `GetObject`, the progress display, writing the file and storing its name (lines 203 onward). These are I/O on the winner the model computes.
- `time.Time` is not modelled. `LastModified` is an integer and `After` is `>`.
- Printing is not modelled. `ListLines` returns the lines without their newline, and `NoFilesFound` stands for the message and exit status of lines 190-193.
- The Go map is keyed by two-character strings such as `"%V"`. The model keys the table by the letter after `%` instead, and `Token(c)` rebuilds the searched text `%c`. No behaviour is lost.
- Byte strings: Go strings are bytes, and the model uses `char` sequences. Every character the code compares (`.`, `/`, `%`, digits, the quoted specials) is ASCII, so the two agree.
- BuildNumbers.Atoi: its contract states the range and the presence of a digit. The parsed value is stated by `AtoiOfDecimal` and `AtoiOfDigits`, for unsigned digit strings only, and the precedence of the range error by `AtoiOverflowFirst`.
- Selection.UniqueMaxWinnerOrderIndependent: order independence of the winner is stated only when one key carries the largest build number. With ties, or with empty build texts only, the code's choice depends on listing order.
