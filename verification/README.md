# Himmelcloak login client: verified model

A Dafny model of the parts of the himmelcloak login client that decide what is accepted, what is
sent and when a login is over. Code that the program runs step by step is written here as classes
and loops; each such method is proved equal to a function, and what the program promises is proved
about those functions, for every input and every run.

- **JSON** (`Utf8`, `JsonGrammar`, `JsonReading`, `JsonStrings`, `JsonProofs`, `JsonParser`,
  `JsonPrinter`, `JsonTexts`, `Claims`). The grammar of RFC 8259 is written as trees with a text and a
  denotation. The recursive-descent parser over a byte buffer returns exactly what the grammar
  derives. Numbers go through an arbitrary conversion that reads nothing but JSON numbers.
- **Pages and forms** (`Text`, `Labels`, `Pages`, `Scanner`, `Markup`, `PageKinds`, `PageProofs`,
  `Urls`, `Requests`, `FormBodies`, `Forms`, `Challenges`). The token-driven page scanner, the
  judgement of a page, its form, and the check of answers. `Markup` says by position what a page's
  tokens yield, and the scan is proved to be that.
- **The login** (`CookieJar`, `Splitting`, `Endpoints`, `Authorizations`, `Grants`, `Login`,
  `LoginFlow`, `LoginProofs`, `LoginRuns`, `LoginBounds`, `LoginProgress`, `Surroundings`,
  `LoginTokens`). `Login` says what each step does to a world of flow, clock readings, exchanges,
  cached keys and a log of what was asked. `LoginFlow` is the flow object and its driver, method by method. A caller may
  begin, advance, cancel, ask, redeem or abandon in any order, and other logins may replace the
  client's cached keys before any look at them; each exchange with the server may be answered by
  anything, fail, or be dropped by the caller; each clock reading is arbitrary. `LoginProofs` finds
  the invariant with an onlooker who watches the log, where every request carries its number and
  every response its body, and `LoginRuns` and `LoginBounds` state what follows for whole runs.
  `LoginProgress` is the other side: a login that is served, and whose user answers, completes.
  `Surroundings` puts the program's own form limit, grant reading and token check in place, and
  `LoginTokens` states what completed logins then prove.
- **ID tokens and sessions** (`IdTokens`, `Sessions`).
- **Transport slots** (`Slots`): an interleaved state machine over any number of requests.
- **Group members** (`Paging`) and **one-time codes** (`Otp`, `Octet`).

Passed in as parameters: the clock, the server, what other logins cache, URL parsing and joining,
HTML tokens, the SHA-256 challenge, HMAC, signatures, base64, number conversion, and the page
factors.

Where the code and its own words differ, the model follows the code:

- A label's comment says whitespace is collapsed; a newline or tab is dropped before that, as a
  control character, so two words around it join. `Labels.NewlineJoinsWords` is such an input and
  `Labels.CleanLabelCollapses` the exact condition; no visible character is ever lost
  (`Labels.CleanLabelShows`).
- The check of a required action's answers counts names. It is exact if and only if the page's field
  names differ (`Challenges.ActionCheckIsExact`), and `Challenges.RepeatedFieldAcceptsStranger` is an
  input where it is not.
- Endpoint paths separate realms except for a realm that is itself named "realms"
  (`Endpoints.RealmsShareAPath` gives the exact condition).

`dafny verify dfyconfig.toml` checks the project.

## Model

| member | source | states |
|---|---|---|
| JsonParser.Parse | src/sensitive_json.rs:70-75 | `parse` returns a value exactly when sections 2 to 7 of RFC 8259 derive it from the whole input under the program's limits, and `None` exactly when they derive none |
| JsonParser.Parser.Whitespace | src/sensitive_json.rs:83-91 | the offset moves past exactly the insignificant whitespace |
| JsonParser.Parser.Consume | src/sensitive_json.rs:93-100 | one byte is taken when it is the expected one, nothing otherwise |
| JsonParser.Parser.ParseValue | src/sensitive_json.rs:110-125 | value and rest are those of the value reader, depth limit 128 included |
| JsonParser.Parser.ParseObject | src/sensitive_json.rs:127-154 | members and rest are those of the member reader; a repeated decoded key is refused |
| JsonParser.Parser.ParseArray | src/sensitive_json.rs:156-173 | elements and rest are those of the element reader |
| JsonParser.Parser.ParseNumber | src/sensitive_json.rs:175-187 | the longest run of number bytes is what the conversion gets |
| JsonParser.Parser.ParseString | src/sensitive_json.rs:189-255 | scan, decode and UTF-8 check together read what the string reader reads, and every success moves forward |
| JsonParser.Parser.FindQuote | src/sensitive_json.rs:193-203 | the scan that jumps two bytes at a backslash stops at the closing quote the grammar allows, if there is one |
| JsonParser.Parser.DecodeRaw | src/sensitive_json.rs:204-246 | the decoding loop writes the decoded bytes into a buffer of the raw length, which at every turn holds no more bytes than were consumed, so it never grows |
| JsonParser.Parser.UnicodeEscape | src/sensitive_json.rs:227-243 | a \u escape, or a surrogate pair of them, becomes the UTF-8 bytes of one scalar in no more bytes than it was written in |
| JsonParser.Hex4 | src/sensitive_json.rs:258-272 | four hexadecimal digits accumulated in sixteen bits are their number |
| JsonParser.ShortByte | src/sensitive_json.rs:220-226 | the parser's own table of escape letters is the reader's, which the grammar's relation agrees with |
| JsonParser.DigitOf | src/sensitive_json.rs:263-269 | the parser's own reading of a hexadecimal digit is the grammar's |
| JsonProofs.TextReads | src/sensitive_json.rs:70-187 | the grammar derives v from a text if and only if the reader reads v from it |
| JsonProofs.TextComplete | src/sensitive_json.rs:110-187 | completeness: every spelling of a value within the limits, whatever whitespace, is read as that value |
| JsonProofs.TextSound | src/sensitive_json.rs:110-187 | soundness: whatever is read is derived by the grammar |
| JsonProofs.ValueComplete | src/sensitive_json.rs:110-125 | a tree in any spelling, after any blanks and before any delimiter, reads as its value and leaves the rest |
| JsonProofs.NumberBytes | src/sensitive_json.rs:175-187 | every number of RFC 8259 section 6 consists of the bytes the scan takes, so the maximal scan loses no valid text |
| JsonProofs.DerivesOnce | src/sensitive_json.rs:70-75 | a text derives at most one value |
| JsonTexts.EscapeReads | src/sensitive_json.rs:219-246 | between quotes a backslash and a letter derive exactly one character for the eight letters of RFC 8259 section 7, each by its code, and nothing for any other byte |
| JsonTexts.HexReads | src/sensitive_json.rs:227-272 | a \u escape between quotes reads as the character its four digits of either case number, and as nothing when they number half of a surrogate pair |
| JsonTexts.BlankReads | src/sensitive_json.rs:83-91 | a byte before a value is passed over if and only if it is a space, a tab, a line feed or a carriage return |
| JsonTexts.BracketReads | src/sensitive_json.rs:110-173 | braces, brackets, colon, comma and literals are the bytes of RFC 8259 |
| JsonTexts.NestingLimit | src/sensitive_json.rs:110-113 | arrays nest up to 129 deep, the outermost counted, and no deeper |
| JsonTexts.DecimalIsNumber | src/sensitive_json.rs:175-187 | every decimal integer, with any sign, fraction and exponent, is a number of the grammar |
| JsonPrinter.EveryValueRoundTrips | src/sensitive_json.rs:110-272 | every value within the limits has a text, and reading the text gives the value back |
| JsonPrinter.SpellValue | src/sensitive_json.rs:110-187 | every value within the limits is denoted by a tree of the grammar |
| JsonPrinter.DenotedWithin | src/sensitive_json.rs:110-254 | no text denotes a value outside the limits: depth, distinct keys, well-formed UTF-8, readable numbers |
| JsonStrings.StringComplete | src/sensitive_json.rs:189-255 | any mix of raw, short and \u spellings of a string reads back as the string, up to its own closing quote |
| JsonStrings.StringSound | src/sensitive_json.rs:189-255 | every accepted string text is such a spelling |
| JsonStrings.DecodingKeepsUtf8 | src/sensitive_json.rs:209-254 | after the escape loop the final UTF-8 check passes if and only if the raw bytes were well-formed UTF-8 |
| JsonStrings.CombineIsBijective | src/sensitive_json.rs:228-239 | surrogate pairs map one to one onto 0x10000..0x10FFFF |
| Utf8.DecodeAllEncodes | src/sensitive_json.rs:248-254 | well-formed bytes are exactly the encoding of the scalars decoded from them (RFC 3629 section 3) |
| Claims.ClearedForgets | src/sensitive_json.rs:52-65 | two values are cleared to the same value if and only if they differ at most in what strings and objects held |
| Claims.Clear | src/sensitive_json.rs:52-65 | clearing walks the whole value, arrays in place item by item and objects member by member, and leaves what the function says |
| Claims.ClearItems | src/sensitive_json.rs:52-65 | an array's items are each cleared in place by the same walk |
| Scanner.Run | src/flow/classify.rs:161-181 | the token loop over the scan's mutable fields ends in the scan the step functions define, and that is what the markup yields |
| Scanner.Scanner.Start | src/flow/classify.rs:183-234 | a start tag changes template depth, capture, form, controls, labels and tiles as defined, and nothing inside a template |
| Scanner.Scanner.End | src/flow/classify.rs:274-305 | an end tag closes a template, the form or the innermost capture as defined |
| Scanner.Scanner.AddControl | src/flow/classify.rs:236-261 | a control is recorded inside the form, and marks the page suspicious when it would submit elsewhere |
| Markup.ScanYields | src/flow/classify.rs:161-305 | for every token sequence: forms, the action and method of the last tag that opened one, the named controls inside forms in order with name, type, value and mark, labels, tiles and messages with the text up to their own end tags, and oddities; nothing in a template counts |
| Markup.FinishesAtOwnEnd | src/flow/classify.rs:192-196 | a collected text ends at its element's own end tag, the first place where as many elements of its name have ended as started |
| PageKinds.LoginPageExactly | src/flow/classify.rs:307-346 | a scan is a user name and password page, with this error, if and only if it has one form, both controls, only the five known names, each once, no tile and nothing odd |
| PageKinds.CodePageExactly | src/flow/classify.rs:307-405 | a scan is a one-time code page offering these devices if and only if it has one form, the code control, only the three known names, only device radios repeated, nothing odd, and its tiles, titles and choice make up exactly these devices |
| PageKinds.AttributeMeans | src/flow/classify.rs:408-413 | a tag's attribute is the first of its name |
| PageKinds.FieldErrorMeans | src/flow/classify.rs:112-119 | the ids of field messages are input-error and input-error-<field>, containers excepted |
| PageKinds.TileIndexMeans | src/flow/classify.rs:213-215 | a tile's number is what its id carries after the prefix |
| PageProofs.TemplatesAreInert | src/flow/classify.rs:142-234 | a balanced template block put anywhere in a token stream changes neither the final scan nor the page kind |
| PageProofs.SortedNumbering | src/flow/classify.rs:350-355 | the sorted tiles are numbered in place if and only if the tiles carry exactly the numbers 0 to n-1 |
| PageProofs.DevicesAreOffered | src/flow/classify.rs:350-405 | offered devices are distinct, one per tile in the tiles' order, and when there is a choice every value the page itself would post is one of them |
| PageProofs.ToggleRoundTrip | src/flow/classify.rs:416-433 | the call a theme writes for a tile is read back as the tile's credential, for every index and plain identifier |
| Labels.CleanLabelIsClean | src/flow/classify.rs:439-455 | a cleaned label holds no control or formatting character and only single inner spaces, and cleaning is idempotent |
| Text.KeptMeans | src/flow/classify.rs:440-454 | a label drops exactly the Cc controls and the sixteen listed invisible marks |
| Labels.CleanLabelShows | src/flow/classify.rs:439-455 | the visible characters of a cleaned label are those of the text, all of them and in order |
| Labels.CleanLabelCollapses | src/flow/classify.rs:435-455 | a label's whitespace is collapsed as its comment promises if and only if no two visible characters have only dropped ones between them with whitespace among those |
| Labels.NewlineJoinsWords | src/flow/classify.rs:435-455 | the input where it is not: a newline between two letters is dropped and the letters join |
| Forms.Submit | src/flow/form.rs:158-188 | answers are refused at the first fault, accepted if and only if acceptable, and then exactly the form's fields are filled in |
| Forms.FilledIsFaithful | src/flow/form.rs:176-186 | each posted field has the page's name and its answer, or else the page's value |
| Forms.ExtractedForm | src/flow/form.rs:55-153 | an extracted form posts over HTTPS to its page's origin under the action path, each session value once and non-empty, only allow-listed fields |
| Forms.ExtractsExactly | src/flow/form.rs:55-153 | a body extracts to a kind and a form if and only if it is markup of that kind whose form posts to an action that passes every check, and the form has that action, the submitted controls and the offered devices |
| Forms.PostedExactly | src/flow/form.rs:75-93 | the form's fields are exactly the allow-listed controls a browser would submit, in order: unchecked radios and checkboxes are left out, everything else is in |
| Forms.DefaultsAreOffered | src/flow/form.rs:75-93 | the device values the page itself would post are among the form's devices |
| Forms.PostedDeviceIsOffered | src/flow/form.rs:158-188 | whatever is posted as the chosen device was offered by the page |
| Requests.Capacity | src/transport.rs:66-79 | the checked machine-word fold refuses a form if and only if its unbounded size bound is over the limit |
| Requests.BodyFits | src/transport.rs:66-90 | the encoded body never exceeds the capacity reserved for it |
| FormBodies.BodySpells | src/transport.rs:80-84 | a form body, decoded as application/x-www-form-urlencoded, spells exactly the fields it was made from, in order, whatever bytes they hold |
| FormBodies.BodyTellsFields | src/transport.rs:80-84 | forms with the same body have the same fields |
| Challenges.ActionCheckIsExact | src/flow/driver.rs:293-307 | the counting check accepts exactly the answers giving every field once if and only if the page's field names differ |
| Challenges.RepeatedFieldAcceptsStranger | src/flow/driver.rs:293-307 | with a repeated field name the check accepts an answer holding an unknown name |
| Challenges.PassesExactly | src/flow/driver.rs:262-310 | an answer passes a challenge if and only if it is of its kind and, where it chooses, chooses a device, credential or method on offer, or gives every field of an action once |
| CookieJar.Jar.Lines | src/flow/fetch.rs:53-62 | the vector's search yields the lines the map holds for the origin, still unexpired |
| CookieJar.Jar.Replace | src/flow/fetch.rs:73-92 | swap-remove and push refine replacing or removing one key of a map; other origins are untouched, origins stay unique with non-empty lists |
| CookieJar.SentAreLastStored | src/flow/fetch.rs:53-92 | after any history, the lines sent to an origin are its last response's usable lines that are still unexpired |
| CookieJar.ExpiredStaysExpired | src/flow/fetch.rs:151-158 | a line once expired is never sent at a later time |
| CookieJar.UnexpiredMeans | src/flow/fetch.rs:152-158 | a line lasts if and only if its fifth field is a number of seconds that is zero or still to come |
| CookieJar.UsableMeans | src/flow/fetch.rs:141-150 | a line is kept for a host if and only if it has seven fields, a name in the sixth, lasts, and its domain, without the HTTP-only mark and one leading dot, is the host or above it |
| CookieJar.KeepsEach | src/flow/fetch.rs:53-92 | lines are kept one by one and in order, each by what it says |
| CookieJar.CookieHostMeans | src/flow/fetch.rs:73-80 | an address in brackets is matched without them |
| CookieJar.DomainMatchesMeans | src/flow/fetch.rs:161-175 | a host matches a domain if and only if it is the domain or ends in a dot and the domain, ignoring ASCII case |
| Endpoints.IssuerRealm | src/token.rs:215-226 | the two-variable loop finds the last segment when it follows "realms" |
| Endpoints.IssuerPathAccepted | src/token.rs:215-246 | an issuer's path followed by any segments without "realms" and percent signs is accepted for the issuer's realm |
| Endpoints.RealmNames | src/token.rs:215-226 | the names an issuer's path can name are exactly the non-empty ones without a slash |
| Endpoints.RealmsShareAPath | src/token.rs:215-246 | two realms share an accepted path if and only if one is named "realms" and the other holds no percent sign, for all realm names and all paths |
| Endpoints.Endpoint | src/token.rs:83-102 | an endpoint is accepted, unchanged, if and only if it is HTTPS on the issuer's origin, has no credentials and no fragment, and is inside the issuer's realm when the issuer names one |
| Endpoints.NormalizeScopes | src/token.rs:152-160 | the scope loop refuses any invalid scope and otherwise computes the normal list |
| Endpoints.NormalScopesAreASet | src/token.rs:152-161 | normal scopes lead with openid, repeat nothing and hold exactly what was asked |
| Endpoints.AuthorizationUrl | src/token.rs:114-185 | the request is built if and only if the endpoint presets no reserved parameter and verifier, state, nonce, scopes and challenge are valid; it differs from the endpoint in its query only, which the endpoint's own parameters lead |
| Authorizations.AsksOnce | src/token.rs:114-185 | the authorization request carries each of the login's parameters exactly once, whatever query the endpoint already has |
| Endpoints.SecretsMean | src/token.rs:187-206 | verifiers, request tokens and scopes are valid if and only if they have the lengths and characters of RFC 7636 section 4.1, base64url and RFC 6749 section 3.3 |
| Endpoints.ScopesSplit | src/token.rs:152-165 | the joined scope parameter comes apart into the scopes again |
| Authorizations.GrantNamesOnce | src/client.rs:297-306 | the code grant names code, verifier, client and callback exactly once each |
| LoginFlow.AuthFlow.constructor | src/flow/mod.rs:194-206 | a new flow is active, with an empty jar, its secrets and a deadline one limit after one clock reading |
| LoginFlow.AuthFlow.Cancel | src/flow/mod.rs:217-220 | cancelling checks the deadline first, then ends and wipes |
| LoginFlow.AuthFlow.IsActive | src/flow/mod.rs:223-226 | the answer is given after the deadline check, which may end the flow |
| LoginFlow.AuthFlow.EnsureActive | src/flow/mod.rs:229-238 | each ended state is reported by its own error |
| LoginFlow.AuthFlow.Finish | src/flow/mod.rs:241-245 | only a flow still in time finishes |
| LoginFlow.AuthFlow.Fail | src/flow/mod.rs:248-251 | failing checks the deadline first, then ends and wipes |
| LoginFlow.AuthFlow.ExpireIfDue | src/flow/mod.rs:253-257 | one clock reading, only while active; at or past the deadline the flow expires |
| LoginFlow.AuthFlow.End | src/flow/mod.rs:259-266 | the outcome changes only from active; jar, page and secrets are always emptied |
| LoginFlow.Send | src/flow/fetch.rs:328-365 | HTTPS only, the origin's cookies, the jar replaced after any response, redirects reported |
| LoginFlow.ReadCallback | src/flow/driver.rs:351-390 | one pass with three slots judges a callback's query as the function on parameter lists does |
| LoginRuns.CallbackAccepts | src/flow/driver.rs:341-391 | a callback yields a code if and only if it names this login's state exactly once, exactly one non-empty code, and no error |
| LoginFlow.Callback | src/flow/driver.rs:341-391 | any other endpoint is no callback; otherwise the flow must be active and the query accepted |
| LoginFlow.VerifyTokens | src/client.rs:202-236 | the keys are fetched at most once, only when the token's key is not cached; fetched keys replace the cached ones, which are looked up again for the check |
| LoginFlow.CheckIdToken | src/client.rs:225-236 | the cache is read again for the check, and a token that passes is recorded with subject, issuer, client and refresh token |
| LoginFlow.Redeem | src/client.rs:296-316 | one grant request, then the ID token check with the flow's nonce; it succeeds with tokens if and only if the code redeems to them |
| LoginBounds.RedeemsExactly | src/client.rs:202-316 | a code is redeemed for tokens if and only if the form fits, the reply is a grant with an ID token, its key is cached or the next reply brings keys, and the ID token passes with the keys then cached at that time; the tokens are that grant's, recorded for the client |
| LoginFlow.ExchangeCode | src/client.rs:256-271 | however the exchange ends, the guard ends the login |
| LoginFlow.CompleteAtCallback | src/client.rs:276-293 | a refused callback fails the login, another redirect leaves it running |
| LoginBounds.CompletesExactly | src/client.rs:256-316 | an active login completes at a redirect with these tokens if and only if it is the registered callback with its own state and a code, the code redeems to them in the sense above, and four clock readings in a row are before the deadline; then it is finished and wiped |
| Urls.SameEndpointMeans | src/flow/driver.rs:393-401 | two URLs are one endpoint if and only if they differ in query and fragment only, or in writing out a default port |
| Urls.SameOriginMeans | src/flow/fetch.rs:345-349 | two URLs share an origin if and only if they agree on a network scheme, host and port |
| LoginFlow.Present | src/flow/driver.rs:197-219 | a page with a rejection fails the login; otherwise its first challenge is asked and the rest queued |
| LoginFlow.Resolve | src/flow/driver.rs:156-194 | the loop over responses computes the recursive definition and ends within five followed redirects |
| LoginProgress.ResponsesExactly | src/flow/fetch.rs:222-238 | a response is a redirect if and only if its status is 301, 302, 303, 307 or 308, only 307 and 308 repeat the request, other statuses from 300 to 399 are refused, and the rest are pages |
| LoginProgress.RedirectJudged | src/flow/driver.rs:163-193 | a redirect in time is judged at the callback if it points there, otherwise followed on the same origin up to the fifth and refused else, after a post as after a get; only 307 and 308 right after a post are refused, even to the callback |
| LoginProgress.ServedLoginCompletes | src/flow/driver.rs:54-219 | a login that is served completes: against a server that leads through any number of known pages to the callback, a caller who answers every challenge ends with the tokens the code redeems to, finished and wiped |
| LoginFlow.FirstPage | src/flow/driver.rs:95-106 | the authorization request is built, the client and hint recorded, the page fetched and resolved |
| LoginFlow.PostPage | src/flow/driver.rs:136-151 | the factor's fields go through the form's own check and size limit before anything is sent |
| LoginFlow.AnswerPage | src/flow/driver.rs:108-132 | the page is taken, client and answer are checked, then the next challenge is asked or the form posted |
| LoginFlow.BeginLogin | src/flow/driver.rs:54-64 | begin is the first page under the step guard |
| LoginFlow.AdvanceLogin | src/flow/driver.rs:68-93 | advance is the answered page under the step guard, which fails the login on an error or a drop |
| LoginProofs.CallKeeps | src/flow/driver.rs:54-219 | every call, with any server, clock, factors, libraries, other logins and drops, keeps the login's invariant |
| LoginProofs.ExchangeKeeps | src/client.rs:256-371 | an exchange keeps the invariant and leaves the login ended, and a success comes with its own reply's tokens and a verified ID token |
| LoginProofs.PostKeeps | src/flow/driver.rs:136-151 | posting a page keeps the invariant provided its challenges were all answered |
| LoginProofs.NextKeeps | src/flow/driver.rs:123-131 | a checked answer extends the answered prefix and moves the queue forward, or settles the page |
| LoginRuns.OneRedemption | src/client.rs:256-371 | in every run at most one code request is sent, with the login's own verifier; no page request, post, code request or challenge follows it; the login completes at most once and only after it |
| LoginRuns.CompletionIsVouched | src/client.rs:202-316 | in every run a login completes only right after its code request, or a key request right after that; its tokens are the reply to the code request, recorded for its own issuer and client; keys were asked for exactly when the cache did not hold the ID token's; and the ID token was verified at the time of that moment for these and the login's nonce, with the keys the login opened with, another login's, or the success reply to the key request |
| LoginTokens.CompletionProves | src/token.rs:313-442 | with the program's own token check, every completed login's ID token is three parts that decode, an eligible key among those the client had at the check signed it, its claims were in force then and name the login's issuer, client and nonce, and their non-empty subject is the recorded one; the keys are those cached or, exactly when the token's key was not among them, the success reply to a request right after the code's |
| LoginTokens.CompletionIsGranted | src/standard.rs:29-74 | every completed login has a bearer access token from the success response to the request its own code was sent in, and the refresh token bound to the session is that response's |
| LoginTokens.RedeemedIsGranted | src/standard.rs:29-74 | a redeemed code came with a success response holding an access token and an ID token |
| LoginRuns.CodeFromCallback | src/flow/driver.rs:341-391 | in every run in which the caller redeems no code itself, each code sent for tokens came in the response just before: a redirect to the registered callback naming this login's state exactly once, that code exactly once, and no error |
| LoginRuns.ResponseIsReply | src/flow/fetch.rs:328-365 | every response of a run is the server's own reply to the page request just before it, for that URL |
| LoginRuns.BeganAsOpened | src/client.rs:238-254 | the first page is asked for with the authorization URL of the begin under way: its client, user and scopes and this flow's own verifier, state and nonce |
| LoginRuns.Confined | src/flow/driver.rs:156-194 | every page request of every run is HTTPS to the authorization endpoint's origin and carries exactly the unexpired lines that origin's last response left; one that follows a redirect goes where the response just before points, which is never the owner's registered callback |
| LoginRuns.PostsAreAnswered | src/flow/driver.rs:108-150 | a form is posted only to its own action after the page last presented had every challenge answered, by exactly the answers given since, in order, each of which passed; what is posted is the form filled in with the fields the call's own factors give for those answers |
| LoginRuns.PostsAreAllowed | src/flow/form.rs:75-98 | over any run every posted field is one its kind of page may post, and every posted device was offered |
| LoginRuns.PostsAreBounded | src/transport.rs:66-91 | over any run no posted body is over the form limit |
| LoginRuns.PendingSplits | src/flow/driver.rs:197-219 | in every reachable state the waiting page splits its challenge list into an answered prefix, the awaited challenge and the queue, and holds exactly the answers given since it was presented |
| LoginRuns.PresentedCame | src/flow/driver.rs:168-172 | a page is presented only as the response just before it, with status 200, extracts: its kind and its form, which posts only allowed fields over HTTPS to the login's origin; it asks what the call's own factors ask for that page and the login's user |
| LoginRuns.AsksInOrder | src/flow/driver.rs:123-128 | a step asks only for the first challenge of the page last presented that the answers given since leave open |
| LoginRuns.RejectedAsShown | src/flow/driver.rs:197-206 | a login is reported as rejected only when the page that came just before rejects it, with that page's reason |
| LoginRuns.RepeatEndsLogin | src/flow/driver.rs:176-180 | after a response with status 307 or 308 to a form post the login is not active, asks nothing more and never completes, not even at the callback |
| LoginRuns.EndedIsWiped | src/flow/mod.rs:259-285 | a login that is not active holds no cookies, page, verifier, state or nonce, and one that redeemed or completed is not active |
| LoginProofs.ClientsToldApart | src/client.rs:347-352 | two clients share the remembered string if and only if issuer, client and callback agree |
| LoginRuns.ForeignClientRefused | src/flow/driver.rs:119-122 | an answer through another client ends the login without a request |
| LoginBounds.CallMoves | src/flow/driver.rs:40-194 | a call makes at most six page requests, at most one of them a post and only in advance; an ended login keeps its outcome |
| LoginBounds.CallsAreLogged | src/flow/driver.rs:54-84 | the log of a run names its calls, all of them and in order, so what is said of the call under way is said of what the caller did |
| LoginBounds.OwnerRemembered | src/flow/driver.rs:101-103 | a login that began remembers its client and user through every later call |
| LoginBounds.ResolveMoves | src/flow/driver.rs:163-193 | resolving sends at most five more page requests and never a post |
| LoginBounds.RunIsTimely | src/flow/mod.rs:217-266 | over any run the outcome leaves active once, and is expired if and only if the last clock reading was at or past the deadline |
| LoginBounds.EndedForGood | src/flow/mod.rs:229-257 | once a login has ended, no later calls change a field, read the clock, look at the keys or reach the server; each step is refused with that ending's error |
| LoginBounds.EndingsReported | src/flow/mod.rs:217-257 | an active login that is cancelled or abandoned in time says cancelled or failed at every later step, and expired if its time was up |
| LoginBounds.FinishedReported | src/flow/mod.rs:229-245 | a finished login says so at every later step |
| LoginBounds.DueIsOver | src/flow/mod.rs:253-257 | a login whose next clock reading is past its deadline expires and is wiped whatever is called, and nothing is sent ever after |
| IdTokens.TokenSplits | src/token.rs:444-454 | a token splits if and only if it is three non-empty parts with a dot between each and none inside, and then into those |
| IdTokens.VerifyWithKeys | src/token.rs:345-369 | the key loop with its flag computes the first settling key's verdict, or the right error when none settles |
| IdTokens.ValidClaimsMean | src/token.rs:372-442 | claims are valid if and only if they name the issuer, the client as sole audience or authorized party, the nonce and a subject, and are in force within a minute's leeway |
| IdTokens.VerifiedExactly | src/token.rs:313-370 | a token is accepted with its claims if and only if it is three decoding parts, a key meant for it, by the members it has, signed the first two with RS256 or ES256, every such key before it merely failed to, and its own claims are valid |
| IdTokens.EligibleMeans | src/token.rs:283-305 | a key may have signed a token if and only if it has the token's kid, kty RSA or EC with crv P-256 as the algorithm wants, use absent or sig, alg absent or the token's, and key_ops absent or strings with verify among them |
| IdTokens.SigningKeySettles | src/token.rs:345-356 | such a key that signed the token settles the check, when every one before it merely failed to |
| IdTokens.OtherKeysSettleNothing | src/token.rs:345-356 | a key that breaks any of these settles nothing, wherever it stands and whatever its signature check would say |
| IdTokens.KnownExactly | src/token.rs:307-311 | a token's key counts as known if and only if the key set's list holds one meant for it |
| IdTokens.VerifiedIsKnown | src/token.rs:265-311 | no token passes with keys that do not hold one it may have been signed with, so fetching exactly then loses nothing |
| Sessions.SessionClient.RefreshTokens | src/client.rs:112-156 | a session that is unverified, another client's or has another refresh token is refused with nothing asked; otherwise the refresh is asked first and once; it succeeds if and only if the replies refresh the session to these tokens, which keep the subject and bind the refresh token |
| Sessions.RefreshesExactly | src/client.rs:112-156 | a refresh gives a session if and only if the previous one was verified for this client, the reply is a grant, and its ID token or the user information names the same subject; the session is that grant's, with the old refresh token where it has none |
| Grants.AcquiredExactly | src/standard.rs:29-74 | a response grants tokens if and only if its status is 200 and its body an object with a non-empty access token, a bearer type in any case, and optional tokens that are texts, null or missing |
| Sessions.SessionClient.VerifySubject | src/client.rs:202-236 | a session's ID token is checked with cached keys, replaced once when its key is not among them |
| Sessions.ChainKeepsSubject | src/client.rs:112-200 | over any number of refreshes the subject never changes, the last refresh's own replies prove its tokens to be that subject's, and the refresh token stays bound |
| Slots.PendingJob.Begin | src/transport.rs:320-336 | a worker that takes the whole job runs it, and otherwise ends and gives back a lone slot, as the machine's step does |
| Slots.PendingJob.Withdraw | src/transport.rs:231-246 | a dropping caller takes what is left of the job and releases its slot, as the machine's step does |
| Slots.OneSideTakes | src/transport.rs:231-246 | in no run do caller and worker both obtain a request's slot or its request |
| Slots.StepKeeps | src/transport.rs:231-246 | every atomic step of a caller, a drop or a worker conserves the slots and keeps both sides agreed on the job |
| Slots.SlotsConserved | src/transport.rs:311-341 | in every interleaving of any number of requests, free, queued, running and passing slots make up 32 |
| Slots.StartsAtMostOnce | src/transport.rs:315-336 | a request starts at most once, and never after its caller withdrew it from the queue |
| Slots.WithdrawnNeverStarts | src/transport.rs:231-246 | a withdrawn request stays unstarted whatever happens afterwards |
| Slots.QuietMeansFree | src/transport.rs:231-246 | with no caller holding a request and no worker running, all 32 slots are free, even while workers are stalled in the queue |
| Slots.SlotsComeBack | src/transport.rs:221-246 | from every reachable state the slots all come back without any queued worker having to run |
| Paging.ReadMembers | src/admin.rs:123-158 | the page loop with its set of seen IDs computes the defined result and counts its requests |
| Paging.AddPage | src/admin.rs:148-156 | a page is taken whole if and only if it keeps all members usable and IDs distinct |
| Paging.ValidMeans | src/admin.rs:149-152 | a member is usable if and only if it has an id and a name that is not all white space |
| Paging.RequestsBounded | src/admin.rs:123-158 | against any server at most 100,001 page requests are made |
| Paging.SuccessIsPages | src/admin.rs:123-158 | any success is the concatenation of the non-empty pages read at their offsets up to an empty one, without a repeated ID |
| Paging.StableListRead | src/admin.rs:123-158 | against a stable list served in prefixes the result is that list if and only if the list is within the limit, usable and free of repeats, and no other list otherwise |
| Otp.HotpDigits | src/authn/totp.rs:51-83 | a code has exactly the asked number of decimal digits, equal to the truncated value modulo that power of ten (RFC 4226 section 5.3) |
| Otp.TruncationDropsSign | src/authn/totp.rs:69-76 | the truncated value is four bytes at the offset, in bounds, without the first one's top bit |
| Otp.HotpExactly | src/authn/totp.rs:64-82 | the hashed message is the counter in eight bytes, most significant first; the value is four bytes of the digest at its last byte modulo sixteen, without the top bit; the digits are its remainder by 10^6, 10^7 or 10^8 |
| Otp.GeneratedExactly | src/authn/totp.rs:51-68 | a code is generated if and only if the secret has sixteen bytes, six to eight digits are asked and the hash works |
| Otp.AcceptsExactly | src/authn/totp.rs:101-113 | a code is accepted if and only if it is the generated one, character by character |
| Otp.ConstantTimeEqual | src/authn/totp.rs:169-180 | the or of the differences is zero if and only if the sequences are equal |
| Otp.Counter.VerifyAndAdvance | src/authn/totp.rs:115-131 | the counter moves by one with an accepted code, stays otherwise, and never overflows |
| Otp.CounterCountsAccepted | src/authn/totp.rs:115-131 | over any attempts the counter grows by the number of accepted codes, which are those of successive counters |

## Left out

- The libraries: HTML tokenizing (lossy UTF-8 of attributes included), URL parsing and joining, base64, number conversion, the JSON reading of key sets and group members, hashing, HMAC and signatures are parameters with only the facts named in the contracts.
- `blob:` URLs, whose origin is that of an inner URL: origins here are opaque unless the scheme is a network scheme with a host.
- Machine-width overflow of the scan's nesting counters and of buffer offsets: counters are unbounded, except where the code itself checks (form sizes, tile numbers, the one-time-code counter).
- Poisoned locks, a failing random generator and a missing runtime, which return errors before anything else happens.
- Overwriting freed memory: the model says that a field is empty, not that its old bytes are gone.
- libcurl itself, its response and header limits, and the native header list.
- A transport deadline is any moment at which a caller gives up; `curl_timeout` is not modelled.
- The uniqueness of a page's posted radio names: the scanner does not limit how many are checked.
- Discovery: each endpoint's check is modelled, the document that names them is not.
- TOTP's division of time by the period, the password grant, revocation and the standalone user information call, each a single step over members modelled here.
- The built-in page factors, the software authenticator, the PAM and NSS modules, the command line and configuration checks: mappings and one-branch checks.
- LoginFlow.Send: does not model a drop before the first poll of a step, when its guard does not exist and nothing has happened.
- LoginRuns.Confined: like the other run theorems, it assumes that all begins of one flow are one client's at one authorization origin; the program begins each flow once.
- Slots.SlotsConserved: counts a slot that a caller has acquired or is giving back as passing, which the program does between two locks.
