# Vinou API connector — a Dafny model of its client core

The Vinou API connector is a PHP library that web shops use to talk to the
Vinou wine-trade API. This project models the deterministic core of that
library in Dafny and proves properties of the model:

- **The public client** (`PublicClient`, `Classes/PublicApi.php`):
  - one route call classifies the HTTP answer and updates `lastStatus` and `lastError`;
  - the public getters shape the request (an id, a path segment or a hash), default the search requests and unwrap the answer envelope (`flatOutput`, `pagedOutput`);
  - the data that goes to the log is scrubbed of credentials.
- **The legacy client** (`LegacyApi`, `Classes/Api.php`):
  - the token pair kept in the `vinou` session entry;
  - login and token validation with re-login;
  - the three result shapes of its route call, and a few calls built on it.
- **Helpers** (`Helper`, `Classes/Tools/Helper.php`): the memoised, slash-normalised document root; the API endpoint chosen from the host and `VINOU_SOURCE`; the current host; nested key lookup.
- **File names and cache refresh**:
  - `Images`: image file names and the re-download decision of the image cache;
  - `Pdf`: PDF file names, per-segment raw URL encoding of API paths, and the fetch decision of the PDF cache;
  - `Converter`: random strings over a configurable alphabet, and file-name normalisation.
- **Small stores and dispatchers**:
  - `Sessions`: the session store and environment detection;
  - `ServicesSettings` and `ToolsSettings` on a shared `SettingsStore`: the two identical settings classes;
  - `Services`: the lazy, build-once service locator;
  - `AjaxHandler`: the Ajax action dispatcher with its append-only error list.

`Php` holds the PHP semantics the code relies on:

- values as `json_decode(..., true)` produces them;
- `isset`, `??`, truthiness, loose comparison with string labels and `is_numeric`;
- the string functions involved: `strtolower` on ASCII, `str_replace`, `preg_replace` on runs, `strpos`, `explode` and `implode`.

What the environment provides becomes a parameter:

- HTTP and curl replies;
- file existence and mtimes;
- parsed change stamps and the clock;
- `mt_rand`;
- `$_SERVER`, `$_POST` and the request body;
- the constants `VINOU_ROOT`, `VINOU_SOURCE`, `VINOU_MODE` and `TYPO3_MODE`;
- the debug mode;
- the basket calls behind the Ajax handler and the dependency callbacks of the service locator.

Requests that are sent and callbacks that run are recorded in ghost logs (`sent`, `calls`), so "no request is made" is a provable statement.

## Model

| member | source | states |
|---|---|---|
| PublicClient.Classify | Classes/PublicApi.php:130-150 | a reply succeeds exactly when it has a status below 400; it is the caught client error exactly for 4xx; 5xx and transport failures escape the route call |
| PublicClient.NormalizeRequestData | Classes/PublicApi.php:110-111 | request data that is null or not an array is sent as an empty array, an array as it is |
| PublicClient.CleanUpLogData | Classes/PublicApi.php:334-346 | exactly the keys password, password_repeat, token and authId are removed; every other entry keeps its value |
| PublicClient.Scrubbed | Classes/PublicApi.php:120-128 | the data logged for a request has the request's keys minus the forbidden ones, with their values |
| PublicClient.FlatOutput | Classes/PublicApi.php:284-289 | the selected entry when it is set, else the whole input when retAll, else false |
| PublicClient.PagedOutput | Classes/PublicApi.php:291-300 | false when data is missing or empty; otherwise exactly the keys dataKey, total and pagination, holding data, totalCount and pages |
| PublicClient.PagedOutputRoundTrip | Classes/PublicApi.php:291-300 | the data of a non-empty page can be read back from the paged answer under its key |
| PublicClient.IdentifierPayload | Classes/PublicApi.php:188 | a numeric input is sent as {id: x}, any other input as {key: x} for the route's own key |
| PublicClient.IdentifierPayloadExamples | Classes/PublicApi.php:188 | a digit string is sent as an id, and text starting with a letter under the route's key |
| PublicClient.LanguageDefaultNeverApplies | Classes/PublicApi.php:207 | outside TYPO3, with no language in the session, the code as written sends language false; the corrected choice sends 'de' |
| PublicClient.LanguageStoredIsKept | Classes/PublicApi.php:207 | a language stored in the session is sent unchanged, both as written and corrected |
| PublicClient.SearchLanguage | Classes/PublicApi.php:207 | the corrected language choice: 'de' when the session has none (null or false), the stored value otherwise |
| PublicClient.SearchPayload | Classes/PublicApi.php:207-209 | the search request keeps every caller entry, sets language, and defaults orderBy to 'chstamp DESC' and max to 9 only where the caller left them unset |
| PublicClient.RouteOutcome | Classes/PublicApi.php:146-183 | success returns the body; a client error returns the body only in debug mode 'result' and false otherwise; exactly the escaping replies throw |
| PublicClient.ClientErrorIsFalse | Classes/PublicApi.php:172-190 | outside debug mode 'result' a client error reaches the caller of a getter or a search as false |
| PublicClient.PublicApi.constructor | Classes/PublicApi.php:76-81 | a new client has lastStatus true, no lastError, an empty log and no request sent |
| PublicClient.PublicApi.CurlApiRoute | Classes/PublicApi.php:108-185 | one request with the normalised data is sent; success sets lastStatus and logs status 200 at debug level; a client error clears lastStatus, keeps the body as lastError and logs 401 as a warning and any other status as an error; an escaping exception changes nothing |
| PublicClient.AfterRoute | Classes/PublicApi.php:140-173 | the tracked state after a route call: flag set and a debug record for a success; flag cleared, the body as error and a warning (401) or error record for a client error; nothing changed for an escaping exception. No contract of its own: CurlApiRoute's ensures state it case by case |
| PublicClient.PublicApi.GetWine | Classes/PublicApi.php:187-191 | sends wines/getPublic with the id or path_segment request and returns the data entry of the answer, or false; lastStatus, lastError and the log change as the route call's classification says |
| PublicClient.PublicApi.GetByCategory | Classes/PublicApi.php:239-243 | sends wines/getByCategory with the id or path_segment request and returns the data entry, or false; lastStatus, lastError and the log change as the route call's classification says |
| PublicClient.PublicApi.GetWinepass | Classes/PublicApi.php:227-231 | sends winepass/wines/get with the id or hash request and returns the data entry, or false; lastStatus, lastError and the log change as the route call's classification says |
| PublicClient.PublicApi.GetWinepassWines | Classes/PublicApi.php:233-237 | sends winepass/wines/getAll with the id or hash request and returns the data entry, or false; lastStatus, lastError and the log change as the route call's classification says |
| PublicClient.PublicApi.Search | Classes/PublicApi.php:203-225 | without a query: false, no request and no change to lastStatus, lastError or the log; with one: the defaulted search request (with the corrected language default, see Left out), the paged answer, and the tracked state the route call leaves |
| PublicClient.PublicApi.SearchWine | Classes/PublicApi.php:203-213 | the search on wines/search, paged under 'wines'; without a query nothing is sent and nothing changes, otherwise lastStatus, lastError and the log change as the route call's classification says |
| PublicClient.PublicApi.SearchWinery | Classes/PublicApi.php:215-225 | the search on wineries/search, paged under 'wineries'; without a query nothing is sent and nothing changes, otherwise lastStatus, lastError and the log change as the route call's classification says |
| PublicClient.PublicApi.Register | Classes/PublicApi.php:277-282 | null registers nothing, returns false, sends no request and changes no tracked state; anything else is sent to customers/register, the data entry is returned, and lastStatus, lastError and the log change as the route call's classification says |
| LegacyApi.TokenPair | Classes/Api.php:79-82 | the session entry holds exactly token and refreshToken, copied from the login answer |
| LegacyApi.RouteResult | Classes/Api.php:111-130 | status 200 gives the decoded body; 401 gives {error: 'unauthorized', info, response}; any other status gives {error: 'recreate token or bad request', info, response} |
| LegacyApi.RouteErrorHasNoToken | Classes/Api.php:111-130 | a non-200 answer carries no token, so it never passes as a client login |
| LegacyApi.ClientLoginResult | Classes/Api.php:201-206 | with both tokens set: the answer without id and info, every other entry unchanged; otherwise false |
| LegacyApi.BasketData | Classes/Api.php:212 | the data entry when it is set, else false |
| LegacyApi.PackagePayload | Classes/Api.php:222-225 | the request has keys type and the type's own name, the count under the latter and the type under 'type' when they differ |
| LegacyApi.PackagePayloadTypeClash | Classes/Api.php:222-225 | for the package type 'type' the count overwrites the type entry |
| LegacyApi.Api.constructor | Classes/Api.php:18-24 | the credentials are stored as {token, authid} and the flags as given; then, from an empty request list and log: without a truthy 'vinou' entry exactly the login request and its log lines; otherwise the probe with the stored token, followed by a login exactly when the probe is not answered with 200, with the matching log lines; after a successful login the token pair is stored under 'vinou' in the environment's store and every other entry of both stores is kept; otherwise the session is untouched |
| LegacyApi.Api.WriteLog | Classes/Api.php:241-244 | the entry is appended exactly when logging is enabled |
| LegacyApi.Api.Login | Classes/Api.php:56-88 | posts the credentials without a bearer token; succeeds exactly without a transport error and with both tokens; on success returns the whole answer and, when cached, stores the token pair under 'vinou' in the environment's store (the PHP session, or the TYPO3 store) and keeps every other entry of both stores; otherwise leaves the session alone and returns false |
| LegacyApi.Api.ValidateLogin | Classes/Api.php:27-53 | without a truthy 'vinou' entry it logs in without probing; otherwise it probes check/login with the stored token, logs in again exactly when the probe is not answered with 200, leaves the session untouched on 200, and returns true; a successful re-login changes only the 'vinou' entry of the environment's store; the log gains 'token valid', or 'token expired' and the login lines, or just the login lines |
| LegacyApi.Api.CurlApiRoute | Classes/Api.php:90-132 | posts to the service URL with the stored bearer token, logs the URL and the status, and returns the three result shapes |
| LegacyApi.Api.GetClientLogin | Classes/Api.php:191-207 | reports the client address (in dev mode the one check/userinfo returns) with the user agent, and returns the client login result; the log gains the lines of each route call and the credentials are unchanged |
| LegacyApi.Api.GetBasket | Classes/Api.php:209-213 | sends the uuid to baskets/get and returns the data entry of the answer, or false; the log gains the route call's lines and the credentials are unchanged |
| LegacyApi.Api.FindPackage | Classes/Api.php:221-228 | sends the package request to packaging/find and returns the data entry, null when missing; the log gains the route call's lines and the credentials are unchanged |
| Helper.NormalizeDocRoot | Classes/Tools/Helper.php:20-30 | a root that already starts and ends with '/' is returned unchanged |
| Helper.NormalizeDocRootShape | Classes/Tools/Helper.php:21-30 | empty exactly for an empty root; otherwise it starts and ends with '/' and is the root with at most one slash added at each end |
| Helper.NormalizeDocRootIdempotent | Classes/Tools/Helper.php:21-30 | normalising a normalised root changes nothing |
| Helper.DocRootCache.constructor | Classes/Tools/Helper.php:16 | the memo starts empty |
| Helper.DocRootCache.GetNormDocRoot | Classes/Tools/Helper.php:18-34 | with no memo (or an empty one, which the loose comparison with NULL treats alike) the normalised VINOU_ROOT or document root is computed and stored; otherwise the memo is returned, whatever the inputs are now |
| Helper.GetApiUrl | Classes/Tools/Helper.php:36-62 | always one of the three endpoints; dev exactly for VINOU_SOURCE 'Dev'; 'Sandbox' and 'Live' force their endpoints; otherwise sandbox exactly for the two shop hosts and live for all others |
| Helper.HostEndpoint | Classes/Tools/Helper.php:37-46 | defines the HTTP_HOST switch. No contract of its own; GetApiUrl's ensures state the endpoint it leads to |
| Helper.GetCurrentHost | Classes/Tools/Helper.php:64-67 | the host behind 'https://' exactly when 'https' occurs in the protocol at a non-zero offset, behind 'http://' otherwise |
| Helper.Lookup | Classes/Tools/Helper.php:81-91 | an empty key path finds the input itself; a first key that is not set fails |
| Helper.LookupAppend | Classes/Tools/Helper.php:81-91 | looking up a concatenated path is looking up the second part below the result of the first |
| Helper.LookupFoundNotNull | Classes/Tools/Helper.php:84-85 | every successful non-empty lookup ends on a non-null value |
| Helper.FindKeyInArray | Classes/Tools/Helper.php:81-91 | the value under the key path, or false as soon as a key is not set |
| Images.NormalizeFileNameChars | Classes/FileHandler/Images.php:96-105 | the normalised name holds only lower-case ASCII letters, digits and '-' |
| Images.NormalizeFileName | Classes/FileHandler/Images.php:96-105 | defines the image name normalisation: the filtering steps shared with the Converter, then one '--' to '-' pass. No contract of its own; its properties are the lemmas NormalizeFileNameChars, ReplaceNoDouble, NormalizeFileNameJoinsWords and TripleHyphenNotCollapsed |
| Images.ReplaceNoDouble | Classes/FileHandler/Images.php:103 | the '--' pass leaves a name with no two adjacent hyphens unchanged |
| Images.NormalizeFileNameJoinsWords | Classes/FileHandler/Images.php:97-103 | a run of whitespace between two normalised words becomes a single '-' |
| Images.TripleHyphenNotCollapsed | Classes/FileHandler/Images.php:103 | 'a---b' normalises to 'a--b', which normalises again to 'a-b', unlike the Converter's normalisation: the single pass does not collapse runs and is not idempotent |
| Images.OptimalFilenameOfParts | Classes/FileHandler/Images.php:90-94 | for dot-separated parts, the result is the normalised first part, a dot and the second part unchanged |
| Images.OptimalFilenameWithoutDot | Classes/FileHandler/Images.php:90-94 | a name without a dot gets its normalised form and a trailing dot |
| Images.CreateOptimalFilename | Classes/FileHandler/Images.php:90-94 | defines the file name from the dot-separated parts. No contract of its own; its properties are the lemmas OptimalFilenameOfParts and OptimalFilenameWithoutDot |
| Images.StripTrailingSlashes | Classes/FileHandler/Images.php:37 | basename's trimming yields a prefix of the path that does not end in '/', and everything cut off is '/' |
| Images.PureFileName | Classes/FileHandler/Images.php:36-42 | defines the name part of the source URL: the basename up to '?', prefixed with the value after the first '=' when there is a query, a host, and `strpos` of 'instagram' is false or 0. Used by StoreApiImage, whose contract gives the resulting file name |
| Images.Folder | Classes/FileHandler/Images.php:46-49 | a folder starting with '/' is used as it is; any other folder is placed below the document root |
| Images.Recreate | Classes/FileHandler/Images.php:57-70 | a missing file is always recreated; an existing one exactly when the stamp was given, is not 'now', parses and is newer than its mtime |
| Images.StoreApiImage | Classes/FileHandler/Images.php:33-88 | the file name and place, the recorded times and the recreate flag; a fetch exactly when recreating a non-svg file, with its status; an svg being recreated points src at the remote URL; otherwise src is the local path below '/' and the status 'no request done' |
| Pdf.ConvertFileNameRemoves | Classes/FileHandler/Pdf.php:73-85 | no space and none of ä ü ö Ä Ü Ö ß ´ survives the conversion |
| Pdf.ConvertFileNameNoSpace | Classes/FileHandler/Pdf.php:74-75 | the converted name holds no space |
| Pdf.ConvertFileNamePlain | Classes/FileHandler/Pdf.php:73-85 | a name made only of lower-case ASCII letters, digits, "-", "_" and "." is its own conversion |
| Pdf.ConvertFileNameLower | Classes/FileHandler/Pdf.php:74 | names with the same ASCII lower case convert alike |
| Pdf.ConvertFileNameUpperUmlaut | Classes/FileHandler/Pdf.php:74-79 | 'Ä' converts to 'Ae', whose second conversion gives 'ae': the conversion is not idempotent |
| Pdf.ConvertFileName | Classes/FileHandler/Pdf.php:73-85 | defines the PDF name conversion as the ordered str_replace passes. No contract of its own; its properties are the lemmas ConvertFileNameRemoves, ConvertFileNameNoSpace, ConvertFileNamePlain, ConvertFileNameLower and ConvertFileNameUpperUmlaut |
| Pdf.EncodeByte | Classes/FileHandler/Pdf.php:69 | an unreserved byte is written as itself; any other byte as '%' and its two upper-case hex digits |
| Pdf.RawUrlEncodeBytesChars | Classes/FileHandler/Pdf.php:69 | the encoding holds only unreserved characters, '%' and hex digits |
| Pdf.RawUrlEncodeNoSlash | Classes/FileHandler/Pdf.php:69 | an encoded segment holds no '/' |
| Pdf.RawUrlDecodeEncode | Classes/FileHandler/Pdf.php:69 | decoding the encoding gives back the bytes |
| Pdf.RawUrlEncodeUnreserved | Classes/FileHandler/Pdf.php:69 | unreserved ASCII text is encoded as itself |
| Pdf.EncodeSegments | Classes/FileHandler/Pdf.php:69 | one encoded segment per segment, in order |
| Pdf.RawUrlEncodeApiPathSegments | Classes/FileHandler/Pdf.php:67-71 | the result starts with the scheme and '://', and splitting the rest at '/' gives the encoded segments of the original path: same count, same order |
| Pdf.RawUrlEncodeApiPathPlain | Classes/FileHandler/Pdf.php:67-71 | a URL whose path segments are unreserved ASCII comes back unchanged |
| Pdf.RawUrlEncodeApiPath | Classes/FileHandler/Pdf.php:67-71 | defines the per-segment encoding of an API path. No contract of its own; its properties are the lemmas RawUrlEncodeApiPathSegments and RawUrlEncodeApiPathPlain |
| Pdf.StoreApiPdf | Classes/FileHandler/Pdf.php:25-65 | the file is the converted prefix plus last path segment inside the folder; it is fetched exactly when it is missing, or a given stamp is newer than its mtime, or the download is forced, and then curl opens the segment-encoded API URL (rawUrlEncodeApiPath of the API base plus the source); otherwise no request and 'no request done' |
| Converter.CharsetMembership | Classes/Tools/Converter.php:11-19 | the alphabet holds digits exactly with numbers, lower case exactly for 'lower' or 'both', upper case exactly for 'upper' or 'both', and the special characters exactly with specialChars |
| Converter.Charset | Classes/Tools/Converter.php:11-19 | defines the alphabet in the source's order. No contract of its own; its properties are the lemmas CharsetMembership, DigitsExactly, LowerExactly, UpperExactly and DefaultCharset |
| Converter.DigitsExactly | Classes/Tools/Converter.php:13 | the digit lists are all digits, and all but 0 and 1 |
| Converter.LowerExactly | Classes/Tools/Converter.php:15 | the lower-case lists are all letters, and all but l |
| Converter.UpperExactly | Classes/Tools/Converter.php:17 | the upper-case lists are all letters, and all but I, O and Q |
| Converter.GenerateRandomString | Classes/Tools/Converter.php:10-27 | exactly `length` characters, each from the alphabet built from the flags; an error only for an empty alphabet and a positive length |
| Converter.UnmistakableExcludes | Classes/Tools/Converter.php:13-17 | with unmistakable, none of 0 1 l I O Q is in the alphabet, hence in the output |
| Converter.DefaultCharset | Classes/Tools/Converter.php:10-17 | the default alphabet is the 62 ASCII digits and letters |
| Converter.FilterNameChars | Classes/Tools/Converter.php:30-35 | the filtered name holds only lower-case ASCII letters, digits and '-' |
| Converter.FilterName | Classes/Tools/Converter.php:30-35 | defines the filtering steps: lower case, umlauts spelt out, whitespace runs to '-', other characters dropped. No contract of its own; its properties are the lemmas FilterNameChars, FilterNameIdentity, FilterNameJoinsWords and FilterNameSpellsUmlaut |
| Converter.NormalizeFileNameChars | Classes/Tools/Converter.php:29-38 | the normalised name holds only lower-case ASCII letters, digits and '-' |
| Converter.NormalizeFileName | Classes/Tools/Converter.php:29-38 | defines the normalisation: the filtering steps, then every run of hyphens to one. No contract of its own; its properties are the lemmas NormalizeFileNameChars, NormalizeFileNameNoDoubleHyphen, NormalizedIsFixedPoint and NormalizeFileNameIdempotent |
| Converter.CollapseLeavesNoDoubleHyphen | Classes/Tools/Converter.php:36 | collapsing hyphen runs leaves no two hyphens side by side |
| Converter.CollapseIdentity | Classes/Tools/Converter.php:36 | collapsing changes nothing where no two hyphens meet |
| Converter.NormalizeFileNameNoDoubleHyphen | Classes/Tools/Converter.php:29-38 | the normalised name never holds '--' |
| Converter.NormalizedIsFixedPoint | Classes/Tools/Converter.php:29-38 | a name over [a-z0-9-] without '--' is its own normalisation |
| Converter.FilterNameIdentity | Classes/Tools/Converter.php:30-35 | the filtering steps leave a name over [a-z0-9-] unchanged |
| Converter.FilterNameJoinsWords | Classes/Tools/Converter.php:34-35 | a run of whitespace between two filtered words becomes a single '-' |
| Converter.FilterNameSpellsUmlaut | Classes/Tools/Converter.php:30-35 | an 'ä' between filtered words is spelt out as 'ae' |
| Converter.NormalizeFileNameIdempotent | Classes/Tools/Converter.php:29-38 | normalising twice gives what normalising once gives |
| Sessions.DetectEnvironmentAjax | Classes/Session/Session.php:83-91 | the modes 'Ajax' and 'cli', and under loose comparison also true, select the Ajax environment whatever TYPO3_MODE says |
| Sessions.DetectEnvironmentOtherwise | Classes/Session/Session.php:83-91 | any other mode string, or no mode, gives TYPO3 when TYPO3_MODE is defined and plain PHP otherwise |
| Sessions.DetectEnvironment | Classes/Session/Session.php:83-91 | defines the environment switch. No contract of its own; its properties are the lemmas DetectEnvironmentAjax and DetectEnvironmentOtherwise |
| Sessions.ReadAfterWrite | Classes/Session/Session.php:49-65 | after a write a non-null value reads back, a null reads as false, and every other key reads as before |
| Sessions.ReadAfterRemove | Classes/Session/Session.php:62-79 | after a delete the key reads as false and every other key as before; only a set key is unset |
| Sessions.Session.GetValue | Classes/Session/Session.php:54-66 | in TYPO3 the framework store is read; elsewhere the value when it is set, else false |
| Sessions.Session.SetValue | Classes/Session/Session.php:40-52 | the value is stored under the key in the environment's store, nothing else changes, and outside TYPO3 the answer is true |
| Sessions.Session.DeleteValue | Classes/Session/Session.php:68-81 | the answer is true even when the key was absent; outside TYPO3 exactly that key is unset when it is set; in TYPO3 the model removes the key from the one framework store (see Left out for the frontend login-user and backend cases) |
| Sessions.Session.Start | Classes/Session/Session.php:21-30 | an existing id is kept and nothing changes; otherwise a 48-character alphanumeric id and the start stamp are stored |
| AjaxHandler.ResolveActionStrings | Classes/Ajax.php:49-73 | exactly the five action names dispatch, each to its own call (deleteItem with the id entry) |
| AjaxHandler.ResolveActionLoose | Classes/Ajax.php:49-73 | under loose comparison true dispatches as 'get', and false, integers and arrays dispatch nothing |
| AjaxHandler.ResolveAction | Classes/Ajax.php:49-73 | defines the action switch under loose comparison. No contract of its own; its properties are the lemmas ResolveActionStrings and ResolveActionLoose |
| AjaxHandler.HandleNoAction | Classes/Ajax.php:42-45 | without an action only 'no action defined' is reported and nothing is dispatched |
| AjaxHandler.HandleRemovesAction | Classes/Ajax.php:47-48 | the action entry is removed from the data before any call |
| AjaxHandler.HandleDispatches | Classes/Ajax.php:49-76 | a resolved action makes exactly its call, the output is its answer, and 'no result created' is reported exactly when that answer is falsy |
| AjaxHandler.HandleUnknown | Classes/Ajax.php:70-76 | an unknown action on a fresh handler reports 'action could not be resolved' and then 'no result created', and makes no call |
| AjaxHandler.Handle | Classes/Ajax.php:41-77 | defines one handleActions step as a value. No contract of its own; its properties are the lemmas HandleNoAction, HandleRemovesAction, HandleDispatches, HandleUnknown and RunAnswers, and HandleActions' ensures ties the method to it |
| AjaxHandler.Render | Classes/Ajax.php:79-85 | the error list is sent exactly when it is non-empty, the output otherwise |
| AjaxHandler.MergeInput | Classes/Ajax.php:38 | the input has the keys of POST and of the JSON body, and the body's values win where keys meet |
| AjaxHandler.RunAnswers | Classes/Ajax.php:31-35 | a fresh handler answers with a result exactly when the action resolves and its call answers with something truthy |
| AjaxHandler.Ajax.constructor | Classes/Ajax.php:12-29 | no errors, output false, no data and no call |
| AjaxHandler.Ajax.LoadInput | Classes/Ajax.php:37-39 | the data becomes the merged input; nothing else changes |
| AjaxHandler.Ajax.HandleActions | Classes/Ajax.php:41-77 | the error list only grows, by exactly the reports of the dispatch, and the call made is recorded |
| AjaxHandler.Ajax.RenderOutput | Classes/Ajax.php:79-85 | sends the errors when there are any, the output otherwise |
| AjaxHandler.Ajax.Run | Classes/Ajax.php:31-35 | load, handle and render: the errors grow by the dispatch's reports and the response renders them |
| Services.Service.constructor | Classes/Services/ServiceLocator.php:24-26 | the built object holds its class and the constructor arguments |
| Services.ServiceLocator.constructor | Classes/Services/ServiceLocator.php:33-34 | the registry starts with Settings and Translator registered without dependencies |
| Services.ServiceLocator.Register | Classes/Services/ServiceLocator.php:14-19 | the name now holds the class and callback, whatever it held before, a built instance included; other names are untouched |
| Services.ServiceLocator.Get | Classes/Services/ServiceLocator.php:21-30 | a registered name is built from the callback's result (or no arguments), then replaced by the instance; a built name returns its instance and runs nothing; an unknown name yields null and is left holding null; other names are untouched |
| Services.GetTwice | Classes/Services/ServiceLocator.php:21-30 | a second get returns the instance of the first, and at most one callback runs |
| SettingsStore.Read | Classes/Services/Settings.php:13-15 | the stored value for a present key, null for an absent one |
| SettingsStore.ReadAfterSet | Classes/Services/Settings.php:21-25 | after set the key reads the new value and every other key reads as before |
| ServicesSettings.Settings.constructor | Classes/Services/Settings.php:9-11 | the store starts empty |
| ServicesSettings.Settings.Get | Classes/Services/Settings.php:13-15 | the stored value when set, else null |
| ServicesSettings.Settings.GetAll | Classes/Services/Settings.php:17-19 | exactly the store, so every key in it reads its value and every other key reads null |
| ServicesSettings.Settings.Set | Classes/Services/Settings.php:21-25 | returns what get gave before, stores the value under the key, changes no other key |
| ToolsSettings.Settings.constructor | Classes/Tools/Settings.class.php:9-11 | the store starts empty |
| ToolsSettings.Settings.Get | Classes/Tools/Settings.class.php:13-15 | the stored value when set, else null |
| ToolsSettings.Settings.GetAll | Classes/Tools/Settings.class.php:17-19 | exactly the store, so every key in it reads its value and every other key reads null |
| ToolsSettings.Settings.Set | Classes/Tools/Settings.class.php:21-25 | returns what get gave before, stores the value under the key, changes no other key |

## Left out

**I/O and side effects**

- HTTP transport: Guzzle and curl, headers, the `Origin` header and the JSON encoding of requests. Each reply is an input.
- The public client's `Pageinfo` log entry, built from `$_SERVER`, `$_GET` and `$_POST`. The Monolog setup, the log directory and its `.htaccess`, the logger's level filter, and crawler detection are left out too. The model records every entry handed to the logger.
- Debug mode 'inline' dumps the error with `var_dump`. That output is not modelled; the returned false is.
- `Helper::getDebugMode` is not part of this model. The debug mode is a constant of the client.
- The Ajax handler's HTTP output: headers, `json_encode` and `exit`.
- Reading `php://input`. The decoded body is an input.
- Filesystem work: `mkdir`, `file_put_contents`, `filemtime` and the downloads (`getExternalImage`, `getExternalPDF*`). Existence, mtimes and download statuses are inputs.
- `checkTempFolder` and `session_start`.
- Date handling: `strtotime`, `DateTime`, `strftime` and `time`. Parsed stamps and the formatted start stamp are inputs.
  - A stamp that `DateTime` cannot parse throws in `storeApiPDF`; that case is not modelled.
- `mt_rand` is an oracle within the requested bounds.

**Other operations and code not modelled**

- TYPO3Session is modelled only as the map `framework` with the semantics of an anonymous frontend session (the 'ses' store): a write sets the key, a delete removes only that key, and a missing key reads as null. The 'user' store of a logged-in frontend user and the backend storage are not modelled separately; `framework` stands for whichever store the request reads and writes.
- Sessions.Session.DeleteValue: in TYPO3 the model removes exactly the key from `framework`. The source differs in two cases. For a logged-in frontend user, `removeSessionData` clears only the 'ses' store, while reads and writes use the 'user' store, so the value stays readable after the delete. In backend mode, `removeBESessionData` saves an empty array for the whole storage, not just the key.
- Sessions.Session.GetValue: in TYPO3 backend mode `readBESessionData` answers false, not null, for a missing key; the model answers null.
- Sessions.Session.SetValue: in TYPO3 the returned flag is not specified, because TYPO3's `storeSessionData` and `setAndSaveSessionData` are not part of this model.
- The other routes of both clients. For the public client: getAllWines, getFilters, getWinery, getElabel, getExpertise, getCountries and getWineregions. For the legacy client: getWine, getWinesByType, getWinesAll, orders, products and categories. They are one-line variations of the modelled calls.
- Helper's `getClassPath`, `imageToBase64` and `curl_get_contents`: reflection and network I/O.
- Redirect.php: it only sends a header and exits.
- The Ajax handler's basket calls (getBasket without its uuid, addItemToBasket, editItemInBasket, deleteItemFromBasket and getBasketPackage) are not defined by the legacy client modelled here. They are the `backend` parameter.
- Ajax constructor: the error branch 'could not create api connection' can never run, because `new` never yields a falsy value. The Api object the constructor builds, and its login, are not part of the handler's model.

**Value and language semantics not modelled**

- PHP arrays are string-keyed maps. Entry order, integer keys with their renumbering in `array_merge`, floats and scalar JSON bodies cast by `(array)` are not modelled.
- Helper.FindKeyInArray: string offsets (`isset($str['x'])` on a string) count as unset, which they are for non-numeric keys. Numeric offsets into strings are not modelled.
- Images.StoreApiImage: `parse_url`, `FILTER_VALIDATE_URL` and `Helper::getApiUrl` are inputs. A query part without '=' reads a missing index in PHP and is taken as the empty string.
- The legacy client's `$_SERVER` reads (`REMOTE_ADDR`, `HTTP_USER_AGENT`) are inputs. A missing `HTTP_HOST` is not modelled in `getApiUrl`: the host is always a string.
- `strtolower` is modelled on ASCII letters only, as PHP 8.2 and later do. Characters are Unicode code points, and `rawurlencode` works on their UTF-8 bytes.
- Loose comparison is modelled for labels that start with a letter. Those are the only labels the code compares against.
- Converter.Charset: `$charmode` is a string here, so the loose `==` with a non-string charmode (`true`, for instance, which equals every non-empty label) is not modelled.

**Errors thrown by the source**

- 5xx replies and transport failures in the public client propagate as exceptions (`Thrown`). Their further handling is the caller's.
- PublicClient.PublicApi.Search: the request carries the corrected language (`SearchLanguage`: 'de' when the session answers null or false), not the code as written, which sends false outside TYPO3 (see Findings).
- PublicClient.PublicApi.SearchWine: sends the corrected language, as Search does.
- PublicClient.PublicApi.SearchWinery: sends the corrected language, as Search does.
- Converter.GenerateRandomString: an empty alphabet with a positive length makes `mt_rand(0, -1)` throw in PHP 8. It is modelled as a `None` result.

## Findings

| source | as written | input that shows it | evidently intended | confidence | as-written member | corrected member |
|---|---|---|---|---|---|---|
| Classes/PublicApi.php:207 | `Session::getValue('language') ?? 'de'`; outside TYPO3 getValue answers false, not null, for a missing key, so `??` never falls back (the same at line 219 and in Classes/Api.php:152) | a session without a 'language' entry outside TYPO3: searchWine sends `language: false` | send 'de' when the session holds no language | not executed | PublicClient.LanguageDefaultNeverApplies | PublicClient.SearchLanguage |
